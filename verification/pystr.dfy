/** The pieces of Python's `str` behaviour that the modelled routines rely on:
    whitespace, case, digits, searching, `split`/`join`/`replace`, `strip`,
    `splitlines`, slicing with a possibly negative bound, and decimal text. */
module PyStr {
  import opened Wrappers

  /** The characters for which Python's `str.isspace()` holds. `str.split()`,
      `str.strip()` and the regular-expression class `\s` all use this set. */
  const Whitespace: set<char> := {
    '\t', '\n', '\U{0B}', '\U{0C}', '\r', '\U{1C}', '\U{1D}', '\U{1E}', '\U{1F}', ' ',
    '\U{85}', '\U{A0}', '\U{1680}',
    '\U{2000}', '\U{2001}', '\U{2002}', '\U{2003}', '\U{2004}', '\U{2005}',
    '\U{2006}', '\U{2007}', '\U{2008}', '\U{2009}', '\U{200A}',
    '\U{2028}', '\U{2029}', '\U{202F}', '\U{205F}', '\U{3000}'
  }

  /** The line boundaries recognised by Python's `str.splitlines()`
      (`\r\n` counts as one boundary). */
  const LineBreaks: set<char> := {
    '\n', '\r', '\U{0B}', '\U{0C}', '\U{1C}', '\U{1D}', '\U{1E}', '\U{85}', '\U{2028}', '\U{2029}'
  }

  predicate IsSpace(c: char) { c in Whitespace }

  // Case and digits are modelled on ASCII only.
  predicate IsDigit(c: char) { '0' <= c <= '9' }
  predicate IsUpper(c: char) { 'A' <= c <= 'Z' }
  predicate IsLower(c: char) { 'a' <= c <= 'z' }

  /** The regular-expression class `\w`. */
  predicate IsWordChar(c: char) { IsDigit(c) || IsUpper(c) || IsLower(c) || c == '_' }

  /** Python's `s.isdigit()`: non-empty and every character a digit. */
  predicate AllDigits(s: string) {
    |s| > 0 && forall i | 0 <= i < |s| :: IsDigit(s[i])
  }

  /** Python's `s.isupper()`: some cased character, and none of them lower-case. */
  predicate AllUpper(s: string) {
    (exists i | 0 <= i < |s| :: IsUpper(s[i])) && !(exists i | 0 <= i < |s| :: IsLower(s[i]))
  }

  function LowerChar(c: char): char {
    if IsUpper(c) then (c as int + 32) as char else c
  }

  /** Python's `s.lower()`. */
  function Lower(s: string): (r: string)
    ensures |r| == |s|
    ensures forall i | 0 <= i < |s| :: r[i] == LowerChar(s[i])
  {
    seq(|s|, i requires 0 <= i < |s| => LowerChar(s[i]))
  }

  function Min(a: int, b: int): int { if a < b then a else b }

  /** Python's `s[:n]` for any integer `n`: a negative `n` drops `-n` elements from the end. */
  function Take<T>(s: seq<T>, n: int): (r: seq<T>)
    ensures r <= s
    ensures 0 <= n ==> |r| == Min(n, |s|)
    ensures n < 0 ==> |r| == if |s| + n < 0 then 0 else |s| + n
  {
    if 0 <= n then s[..Min(n, |s|)]
    else if |s| + n < 0 then []
    else s[..|s| + n]
  }

  // ---------------------------------------------------------------- searching

  /** `sub` occurs in `s` starting at index `i`. */
  predicate IsAt(s: string, sub: string, i: nat) {
    i + |sub| <= |s| && s[i..i + |sub|] == sub
  }

  /** The leftmost occurrence of `sub` in `s` at or after `from`. */
  function FindFrom(s: string, sub: string, from: nat): (r: Option<nat>)
    requires from <= |s|
    ensures r.Some? ==> from <= r.value <= |s| && IsAt(s, sub, r.value)
    ensures forall j | from <= j <= |s| && (r.None? || j < r.value) :: !IsAt(s, sub, j)
    decreases |s| - from
  {
    if IsAt(s, sub, from) then Some(from)
    else if from == |s| then None
    else FindFrom(s, sub, from + 1)
  }

  /** Python's `s.find(sub)`, with `None` for -1. */
  function Find(s: string, sub: string): Option<nat> {
    FindFrom(s, sub, 0)
  }

  /** An occurrence with none before it is what `find` returns. */
  lemma {:induction false} FindLeftmost(s: string, sub: string, p: nat)
    requires p <= |s| && IsAt(s, sub, p)
    requires forall j | 0 <= j < p :: !IsAt(s, sub, j)
    ensures Find(s, sub) == Some(p)
  {
  }

  /** Python's `sub in s`. */
  predicate Contains(s: string, sub: string) {
    Find(s, sub).Some?
  }

  predicate StartsWith(s: string, prefix: string) {
    |prefix| <= |s| && s[..|prefix|] == prefix
  }

  predicate EndsWith(s: string, suffix: string) {
    |suffix| <= |s| && s[|s| - |suffix|..] == suffix
  }

  // ------------------------------------------------------ split, join, replace

  /** Python's `sep.join(parts)`. */
  function Join(sep: string, parts: seq<string>): string
    decreases |parts|
  {
    if |parts| == 0 then ""
    else if |parts| == 1 then parts[0]
    else parts[0] + sep + Join(sep, parts[1..])
  }

  /** Python's `s.split(sep)` for a non-empty separator: the pieces between the
      leftmost non-overlapping occurrences of `sep`. */
  function Split(s: string, sep: string): (parts: seq<string>)
    requires |sep| > 0
    ensures |parts| >= 1
    ensures forall k | 0 <= k < |parts| :: !Contains(parts[k], sep)
    decreases |s|
  {
    match Find(s, sep)
    case None => [s]
    case Some(p) =>
      assert !Contains(s[..p], sep) by {
        forall j | 0 <= j <= p ensures !IsAt(s[..p], sep, j) {
          if j < p {
            assert !IsAt(s, sep, j);
          }
        }
      }
      [s[..p]] + Split(s[p + |sep|..], sep)
  }

  /** Joining a piece in front of at least one more piece puts the separator between. */
  lemma {:induction false} JoinCons(sep: string, first: string, rest: seq<string>)
    requires |rest| >= 1
    ensures Join(sep, [first] + rest) == first + sep + Join(sep, rest)
  {
    assert ([first] + rest)[1..] == rest;
  }

  /** A split at the leftmost occurrence `p` of `sep` takes `s[..p]` off the front. */
  lemma {:induction false} SplitAt(s: string, sep: string, p: nat)
    requires |sep| > 0
    requires Find(s, sep) == Some(p)
    ensures Split(s, sep) == [s[..p]] + Split(s[p + |sep|..], sep)
  {
  }

  /** Joining the pieces of a split with the same separator gives the text back. */
  lemma {:induction false} JoinSplit(s: string, sep: string)
    requires |sep| > 0
    ensures Join(sep, Split(s, sep)) == s
    decreases |s|
  {
    match Find(s, sep)
    case None =>
    case Some(p) =>
      var rest := s[p + |sep|..];
      SplitAt(s, sep, p);
      JoinCons(sep, s[..p], Split(rest, sep));
      JoinSplit(rest, sep);
      assert s[p..p + |sep|] == sep;
      assert s == s[..p] + s[p..p + |sep|] + rest;
  }

  /** A character that does not occur is not found. */
  lemma {:induction false} CharNotFound(s: string, c: char)
    requires c !in s
    ensures Find(s, [c]) == None
  {
    forall j | 0 <= j <= |s| ensures !IsAt(s, [c], j) {
      if j + 1 <= |s| {
        assert s[j..j + 1][0] == s[j];
      }
    }
  }

  /** Splitting on a one-character separator undoes joining pieces that do not contain it. */
  lemma {:induction false} SplitJoinChar(parts: seq<string>, c: char)
    requires |parts| >= 1
    requires forall k | 0 <= k < |parts| :: c !in parts[k]
    ensures Split(Join([c], parts), [c]) == parts
    decreases |parts|
  {
    var first := parts[0];
    if |parts| == 1 {
      CharNotFound(first, c);
    } else {
      var rest := parts[1..];
      var s := Join([c], parts);
      assert parts == [first] + rest;
      JoinCons([c], first, rest);
      forall j | 0 <= j < |first| ensures !IsAt(s, [c], j) {
        assert s[j] == first[j];
      }
      assert IsAt(s, [c], |first|);
      SplitAt(s, [c], |first|);
      assert s[..|first|] == first;
      assert s[|first| + 1..] == Join([c], rest);
      SplitJoinChar(rest, c);
    }
  }

  /** A text without the one-character separator splits into itself alone. */
  lemma {:induction false} SplitCharNone(s: string, c: char)
    requires c !in s
    ensures Split(s, [c]) == [s]
  {
    CharNotFound(s, c);
  }

  /** A piece without the one-character separator, then the separator, comes
      off the front of the split. */
  lemma {:induction false} SplitCharCons(first: string, c: char, rest: string)
    requires c !in first
    ensures Split(first + [c] + rest, [c]) == [first] + Split(rest, [c])
  {
    var s := first + [c] + rest;
    forall j | 0 <= j < |first| ensures !IsAt(s, [c], j) {
      assert s[j] == first[j];
    }
    assert IsAt(s, [c], |first|);
    FindLeftmost(s, [c], |first|);
    SplitAt(s, [c], |first|);
    assert s[..|first|] == first;
    assert s[|first| + 1..] == rest;
  }

  /** Joining two non-empty lists puts one separator between their joins. */
  lemma {:induction false} JoinAppend(sep: string, a: seq<string>, b: seq<string>)
    requires |a| >= 1 && |b| >= 1
    ensures Join(sep, a + b) == Join(sep, a) + sep + Join(sep, b)
    decreases |a|
  {
    if |a| == 1 {
      JoinCons(sep, a[0], b);
      assert a + b == [a[0]] + b;
    } else {
      var rest := a[1..];
      assert a + b == [a[0]] + (rest + b);
      JoinCons(sep, a[0], rest + b);
      JoinCons(sep, a[0], rest);
      assert a == [a[0]] + rest;
      JoinAppend(sep, rest, b);
    }
  }

  /** Python's `s.replace(target, repl)`, which equals `repl.join(s.split(target))`. */
  function Replace(s: string, target: string, repl: string): string
    requires |target| > 0
  {
    Join(repl, Split(s, target))
  }

  /** Text with no `c` holds no occurrence of a target that starts with `c`. */
  lemma {:induction false} NotFoundWithout(s: string, target: string)
    requires |target| > 0 && target[0] !in s
    ensures Find(s, target) == None
  {
    forall j | 0 <= j <= |s| ensures !IsAt(s, target, j) {
      if j + |target| <= |s| {
        assert s[j..j + |target|][0] == s[j];
      }
    }
  }

  /** Replacing at the leftmost occurrence `p` of `target` keeps `s[..p]` in front. */
  lemma {:induction false} ReplaceAt(s: string, target: string, repl: string, p: nat)
    requires |target| > 0
    requires Find(s, target) == Some(p)
    ensures Replace(s, target, repl) == s[..p] + repl + Replace(s[p + |target|..], target, repl)
  {
    SplitAt(s, target, p);
    JoinCons(repl, s[..p], Split(s[p + |target|..], target));
  }

  /** `s` with every character `a` turned into `b`, position by position. */
  function MapChar(s: string, a: char, b: char): (r: string) {
    seq(|s|, i requires 0 <= i < |s| => if s[i] == a then b else s[i])
  }

  /** Rewriting characters distributes over a text cut around one character `a`. */
  lemma {:induction false} MapCharAt(s: string, a: char, b: char, p: nat)
    requires p < |s| && s[p] == a
    requires forall i | 0 <= i < p :: s[i] != a
    ensures MapChar(s, a, b) == s[..p] + [b] + MapChar(s[p + 1..], a, b)
  {
  }

  /** Replacing a one-character string by another rewrites exactly those characters. */
  lemma {:induction false} ReplaceChar(s: string, a: char, b: char)
    ensures Replace(s, [a], [b]) == MapChar(s, a, b)
    decreases |s|
  {
    match Find(s, [a])
    case None =>
      forall i | 0 <= i < |s| ensures s[i] != a {
        assert !IsAt(s, [a], i);
      }
      assert MapChar(s, a, b) == s;
    case Some(p) =>
      forall i | 0 <= i < p ensures s[i] != a {
        assert !IsAt(s, [a], i);
      }
      assert s[p..p + 1] == [a];
      ReplaceAt(s, [a], [b], p);
      MapCharAt(s, a, b, p);
      ReplaceChar(s[p + 1..], a, b);
  }

  // ------------------------------------------------------------ strip, words

  /** The number of leading characters of `s` that belong to `cs`. */
  function SpanIn(s: string, cs: set<char>): (k: nat)
    ensures k <= |s|
    ensures forall i | 0 <= i < k :: s[i] in cs
    ensures k < |s| ==> s[k] !in cs
    decreases |s|
  {
    if |s| > 0 && s[0] in cs then 1 + SpanIn(s[1..], cs) else 0
  }

  /** The number of leading characters of `s` that do not belong to `cs`. */
  function SpanNotIn(s: string, cs: set<char>): (k: nat)
    ensures k <= |s|
    ensures forall i | 0 <= i < k :: s[i] !in cs
    ensures k < |s| ==> s[k] in cs
    decreases |s|
  {
    if |s| > 0 && s[0] !in cs then 1 + SpanNotIn(s[1..], cs) else 0
  }

  /** The number of trailing characters of `s` that belong to `cs`. */
  function TrailingIn(s: string, cs: set<char>): (k: nat)
    ensures k <= |s|
    ensures forall i | |s| - k <= i < |s| :: s[i] in cs
    ensures k < |s| ==> s[|s| - 1 - k] !in cs
    decreases |s|
  {
    if |s| > 0 && s[|s| - 1] in cs then 1 + TrailingIn(s[..|s| - 1], cs) else 0
  }

  /** Python's `s.strip(chars)`, the characters given as a set. */
  function StripSet(s: string, cs: set<char>): (r: string)
    ensures |r| > 0 ==> r[0] !in cs && r[|r| - 1] !in cs
    ensures |r| == 0 <==> forall i | 0 <= i < |s| :: s[i] in cs
  {
    var t := s[SpanIn(s, cs)..];
    t[..|t| - TrailingIn(t, cs)]
  }

  /** Python's `s.strip()`. */
  function Strip(s: string): (r: string)
    ensures |r| > 0 ==> !IsSpace(r[0]) && !IsSpace(r[|r| - 1])
    ensures |r| == 0 <==> forall i | 0 <= i < |s| :: IsSpace(s[i])
  {
    StripSet(s, Whitespace)
  }

  /** Stripping removes exactly the maximal run of `cs` characters at each end:
      when `s[a..b]` is flanked only by such characters and neither starts nor
      ends with one (or is empty because all of `s` consists of them), it is
      what stripping leaves. */
  lemma {:induction false} StripSetIsTrim(s: string, cs: set<char>, a: nat, b: nat)
    requires a <= b <= |s|
    requires forall i | 0 <= i < a :: s[i] in cs
    requires forall i | b <= i < |s| :: s[i] in cs
    requires a < b ==> s[a] !in cs && s[b - 1] !in cs
    requires a == b ==> forall i | 0 <= i < |s| :: s[i] in cs
    ensures StripSet(s, cs) == s[a..b]
  {
    if a < b {
      assert SpanIn(s, cs) == a;
      var t := s[a..];
      var m := TrailingIn(t, cs);
      assert m == |s| - b;
      assert t[..|t| - m] == s[a..b];
    }
  }

  /** Text that neither starts nor ends with a character of `cs` is left alone by stripping. */
  lemma {:induction false} StripSetStripped(s: string, cs: set<char>)
    requires |s| > 0 ==> s[0] !in cs && s[|s| - 1] !in cs
    ensures StripSet(s, cs) == s
  {
    assert SpanIn(s, cs) == 0;
    assert s[0..] == s;
  }

  /** A run of characters outside `cs`: non-empty and free of `cs`. */
  predicate IsRun(w: string, cs: set<char>) {
    |w| > 0 && forall i | 0 <= i < |w| :: w[i] !in cs
  }

  /** The maximal runs of characters outside `cs`, left to right. */
  function SplitRuns(s: string, cs: set<char>): (runs: seq<string>)
    ensures forall k | 0 <= k < |runs| :: IsRun(runs[k], cs)
    ensures |runs| == 0 <==> forall i | 0 <= i < |s| :: s[i] in cs
    decreases |s|
  {
    var t := s[SpanIn(s, cs)..];
    if t == [] then []
    else
      var n := SpanNotIn(t, cs);
      [t[..n]] + SplitRuns(t[n..], cs)
  }

  /** A separator in front of a text does not change its runs. */
  lemma {:induction false} SplitRunsSeparator(c: char, x: string, cs: set<char>)
    requires c in cs
    ensures SplitRuns([c] + x, cs) == SplitRuns(x, cs)
  {
    assert ([c] + x)[1..] == x;
    assert SpanIn([c] + x, cs) == 1 + SpanIn(x, cs);
    assert ([c] + x)[1 + SpanIn(x, cs)..] == x[SpanIn(x, cs)..];
  }

  /** The span outside `cs` of a run followed by a separator is the run. */
  lemma {:induction false} SpanNotInRun(w: string, rest: string, cs: set<char>)
    requires forall i | 0 <= i < |w| :: w[i] !in cs
    requires |rest| > 0 ==> rest[0] in cs
    ensures SpanNotIn(w + rest, cs) == |w|
    decreases |w|
  {
    if |w| > 0 {
      assert (w + rest)[1..] == w[1..] + rest;
      SpanNotInRun(w[1..], rest, cs);
    }
  }

  /** A run followed by nothing or by a separator is split off first. */
  lemma {:induction false} SplitRunsFirst(w: string, rest: string, cs: set<char>)
    requires IsRun(w, cs)
    requires |rest| > 0 ==> rest[0] in cs
    ensures SplitRuns(w + rest, cs) == [w] + SplitRuns(rest, cs)
  {
    var s := w + rest;
    assert s[0] == w[0];
    assert SpanIn(s, cs) == 0;
    assert s[0..] == s;
    SpanNotInRun(w, rest, cs);
    assert s[..|w|] == w;
    assert s[|w|..] == rest;
  }

  /** A run, a separator and a text split as the run followed by the text's runs. */
  lemma {:induction false} SplitRunsCons(w: string, c: char, tail: string, cs: set<char>)
    requires c in cs
    requires IsRun(w, cs)
    ensures SplitRuns(w + [c] + tail, cs) == [w] + SplitRuns(tail, cs)
  {
    assert w + [c] + tail == w + ([c] + tail);
    SplitRunsFirst(w, [c] + tail, cs);
    SplitRunsSeparator(c, tail, cs);
  }

  /** Splitting runs joined by single separators gives the runs back. */
  lemma {:induction false} SplitJoinRuns(ws: seq<string>, c: char, cs: set<char>)
    requires c in cs
    requires forall k | 0 <= k < |ws| :: IsRun(ws[k], cs)
    ensures SplitRuns(Join([c], ws), cs) == ws
    decreases |ws|
  {
    if |ws| == 0 {
    } else if |ws| == 1 {
      SplitRunsFirst(ws[0], "", cs);
      assert ws[0] + "" == ws[0];
    } else {
      var more := ws[1..];
      var tail := Join([c], more);
      assert ws == [ws[0]] + more;
      JoinCons([c], ws[0], more);
      SplitRunsCons(ws[0], c, tail, cs);
      SplitJoinRuns(more, c, cs);
    }
  }

  /** A word of `str.split()`: non-empty and free of whitespace. */
  predicate IsWord(w: string) {
    IsRun(w, Whitespace)
  }

  /** Python's `s.split()` with no argument: the maximal runs of non-whitespace. */
  function SplitWhitespace(s: string): (words: seq<string>)
    ensures forall k | 0 <= k < |words| :: IsWord(words[k])
    ensures |words| == 0 <==> forall i | 0 <= i < |s| :: IsSpace(s[i])
  {
    SplitRuns(s, Whitespace)
  }

  /** Splitting words joined by single spaces gives the words back. */
  lemma {:induction false} SplitJoinWords(ws: seq<string>)
    requires forall k | 0 <= k < |ws| :: IsWord(ws[k])
    ensures SplitWhitespace(Join(" ", ws)) == ws
  {
    SplitJoinRuns(ws, ' ', Whitespace);
  }

  // ---------------------------------------------------------------- lines

  /** Python's `s.splitlines()`: the text between line boundaries, with no
      empty line after a final boundary. */
  function SplitLines(s: string): (lines: seq<string>)
    ensures forall k, i | 0 <= k < |lines| && 0 <= i < |lines[k]| :: lines[k][i] !in LineBreaks
    ensures |lines| == 0 <==> |s| == 0
    decreases |s|
  {
    if s == [] then []
    else
      var n := SpanNotIn(s, LineBreaks);
      if n == |s| then [s]
      else
        var skip := if s[n] == '\r' && n + 1 < |s| && s[n + 1] == '\n' then 2 else 1;
        [s[..n]] + SplitLines(s[n + skip..])
  }

  // ---------------------------------------------------------------- decimal

  function DigitChar(d: nat): (c: char)
    requires d < 10
    ensures IsDigit(c)
  {
    ('0' as int + d) as char
  }

  function DigitValue(c: char): nat
    requires IsDigit(c)
  {
    c as int - '0' as int
  }

  /** Python's `str(n)` for a non-negative integer. */
  function NatToString(n: nat): (r: string)
    ensures AllDigits(r)
    decreases n
  {
    if n < 10 then [DigitChar(n)] else NatToString(n / 10) + [DigitChar(n % 10)]
  }

  /** Python's `int(s)` for a string of decimal digits. */
  function DigitsValue(s: string): nat
    requires forall i | 0 <= i < |s| :: IsDigit(s[i])
    decreases |s|
  {
    if |s| == 0 then 0 else DigitsValue(s[..|s| - 1]) * 10 + DigitValue(s[|s| - 1])
  }

  /** Reading back the decimal text of a number gives the number. */
  lemma {:induction false} DigitsValueOfNatToString(n: nat)
    ensures DigitsValue(NatToString(n)) == n
    decreases n
  {
    var s := NatToString(n);
    if n >= 10 {
      DigitsValueOfNatToString(n / 10);
      assert s[..|s| - 1] == NatToString(n / 10);
    }
  }

  /** Distinct numbers have distinct decimal texts. */
  lemma {:induction false} NatToStringInjective(a: nat, b: nat)
    ensures NatToString(a) == NatToString(b) ==> a == b
  {
    DigitsValueOfNatToString(a);
    DigitsValueOfNatToString(b);
  }
}
