/** The parts of Python's `str` and `int` that the parsers rely on:
    `strip()`, `splitlines()`, `split(sep, maxsplit)`, the substring test
    `t in s`, `count`, `startswith` and `int(s, base)` for bases 10 and 16.
    A Python `str` is a sequence of code points, as a Dafny `string` is. */
module PyStr {
  import opened Wrappers

  // ---------------------------------------------------------------------------
  // Whitespace and str.strip()

  /** The characters for which Python's `str.isspace()` holds. */
  predicate IsSpace(c: char) {
    c == ' ' || ('\t' <= c <= '\r') || ('\U{1C}' <= c <= '\U{1F}') ||
    c == '\U{85}' || c == '\U{A0}' || c == '\U{1680}' ||
    ('\U{2000}' <= c <= '\U{200A}') || c == '\U{2028}' || c == '\U{2029}' ||
    c == '\U{202F}' || c == '\U{205F}' || c == '\U{3000}'
  }

  predicate AllSpace(s: string) {
    forall i :: 0 <= i < |s| ==> IsSpace(s[i])
  }

  function Spaces(n: nat): (r: string)
    ensures |r| == n && forall i :: 0 <= i < n ==> r[i] == ' '
  {
    if n == 0 then "" else " " + Spaces(n - 1)
  }

  /** Number of whitespace characters at the front of `s`. */
  function LeadingSpace(s: string): (k: nat)
    ensures k <= |s| && AllSpace(s[..k])
    ensures k < |s| ==> !IsSpace(s[k])
  {
    if s != [] && IsSpace(s[0]) then
      var k' := LeadingSpace(s[1..]);
      assert s[..1 + k'] == [s[0]] + s[1..][..k'];
      1 + k'
    else 0
  }

  /** Index at which the whitespace at the end of `s` begins. */
  function TrailingStart(s: string): (k: nat)
    ensures k <= |s| && AllSpace(s[k..])
    ensures k > 0 ==> !IsSpace(s[k - 1])
  {
    if s != [] && IsSpace(s[|s| - 1]) then
      var k := TrailingStart(s[..|s| - 1]);
      assert s[k..] == s[..|s| - 1][k..] + [s[|s| - 1]];
      k
    else |s|
  }

  /** Python's `s.strip()`: `s` without its leading and trailing whitespace. */
  function Strip(s: string): (r: string)
    ensures r == [] || (!IsSpace(r[0]) && !IsSpace(r[|r| - 1]))
    ensures var i := LeadingSpace(s);
      i + |r| <= |s| && r == s[i..i + |r|] && AllSpace(s[i + |r|..])
  {
    var i := LeadingSpace(s);
    var t := s[i..];
    var j := TrailingStart(t);
    assert s[i + j..] == t[j..];
    t[..j]
  }

  /** `Strip` removes exactly the whitespace margins of a string: whatever
      is put around a core without outer whitespace, the core comes back. */
  lemma StripOfPadded(pre: string, core: string, post: string)
    requires AllSpace(pre) && AllSpace(post)
    requires core == [] || (!IsSpace(core[0]) && !IsSpace(core[|core| - 1]))
    ensures Strip(pre + core + post) == core
  {
    var s := pre + core + post;
    if core == [] {
      assert AllSpace(s);
    } else {
      LeadingSpaceOfPadded(pre, core + post);
      assert s == pre + (core + post);
      var i := LeadingSpace(s);
      var r := Strip(s);
      assert i == |pre|;
      assert s[i + |core| - 1] == core[|core| - 1];
      assert |r| == |core|;
      assert s[i..i + |core|] == core;
    }
  }

  /** Stripping twice is stripping once. */
  lemma StripStrip(s: string)
    ensures Strip(Strip(s)) == Strip(s)
  {
    StripOfPadded("", Strip(s), "");
    assert "" + Strip(s) + "" == Strip(s);
  }

  lemma LeadingSpaceOfPadded(pre: string, rest: string)
    requires AllSpace(pre)
    requires rest != [] ==> !IsSpace(rest[0]) || AllSpace(rest)
    ensures rest != [] && !IsSpace(rest[0]) ==> LeadingSpace(pre + rest) == |pre|
    decreases |pre|
  {
    if pre != [] {
      assert (pre + rest)[1..] == pre[1..] + rest;
      LeadingSpaceOfPadded(pre[1..], rest);
    } else {
      assert pre + rest == rest;
    }
  }

  // ---------------------------------------------------------------------------
  // Substring search: Python's `t in s`, `s.find(t)` and `s.startswith(t)`

  /** `t` occurs in `s` at position `i`. */
  predicate At(s: string, t: string, i: nat) {
    i + |t| <= |s| && s[i..i + |t|] == t
  }

  /** The first occurrence of `t` in `s` at or after position `k`. */
  function IndexFrom(s: string, t: string, k: nat): (r: Option<nat>)
    ensures r.Some? ==> k <= r.value && At(s, t, r.value) &&
                        forall j :: k <= j < r.value ==> !At(s, t, j)
    ensures r.None? ==> forall j :: k <= j ==> !At(s, t, j)
    decreases |s| - k
  {
    if k + |t| > |s| then None
    else if s[k..k + |t|] == t then Some(k)
    else IndexFrom(s, t, k + 1)
  }

  /** Python's `s.find(t)`, with `None` for -1. */
  function IndexOf(s: string, t: string): (r: Option<nat>)
    ensures r.Some? ==> At(s, t, r.value) && forall j :: 0 <= j < r.value ==> !At(s, t, j)
    ensures r.None? ==> forall j :: 0 <= j ==> !At(s, t, j)
  {
    IndexFrom(s, t, 0)
  }

  /** Python's `t in s` for two strings. */
  predicate Contains(s: string, t: string) {
    IndexOf(s, t).Some?
  }

  lemma ContainsAt(s: string, t: string, i: nat)
    requires At(s, t, i)
    ensures Contains(s, t)
  {
  }

  /** Python's `s.startswith(p)`. */
  predicate StartsWith(s: string, p: string) {
    |p| <= |s| && s[..|p|] == p
  }

  /** A string that lacks one of the characters of `t` does not contain `t`. */
  lemma NotContainsByChar(s: string, t: string, c: char)
    requires c in t && c !in s
    ensures !Contains(s, t)
  {
  }

  /** An occurrence inside a part is an occurrence in the whole. */
  lemma ContainsInfix(a: string, b: string, c: string, t: string)
    requires Contains(b, t)
    ensures Contains(a + b + c, t)
  {
    var i := IndexOf(b, t).value;
    var s := a + b + c;
    assert s[|a| + i..|a| + i + |t|] == b[i..i + |t|];
    ContainsAt(s, t, |a| + i);
  }

  // ---------------------------------------------------------------------------
  // str.split(sep, maxsplit) and its inverse, sep.join(parts)

  /** Python's `s.split(sep, maxsplit)` for a non-empty separator; a negative
      `maxsplit` means no limit, as in Python. */
  function Split(s: string, sep: string, maxsplit: int): (parts: seq<string>)
    requires sep != []
    ensures |parts| >= 1
    ensures maxsplit >= 0 ==> |parts| <= maxsplit + 1
    decreases |s|
  {
    match IndexOf(s, sep)
    case None => [s]
    case Some(i) =>
      if maxsplit == 0 then [s]
      else [s[..i]] + Split(s[i + |sep|..], sep, maxsplit - 1)
  }

  /** Python's `sep.join(parts)`. */
  function Join(parts: seq<string>, sep: string): string {
    if parts == [] then ""
    else if |parts| == 1 then parts[0]
    else parts[0] + sep + Join(parts[1..], sep)
  }

  /** Splitting and joining with the same separator gives the text back. */
  lemma {:induction false} SplitJoin(s: string, sep: string, maxsplit: int)
    requires sep != []
    ensures Join(Split(s, sep, maxsplit), sep) == s
    decreases |s|
  {
    var io := IndexOf(s, sep);
    if io.Some? && maxsplit != 0 {
      var i := io.value;
      var rest := s[i + |sep|..];
      var parts := Split(rest, sep, maxsplit - 1);
      SplitJoin(rest, sep, maxsplit - 1);
      assert Split(s, sep, maxsplit) == [s[..i]] + parts;
      JoinCons(s[..i], parts, sep);
      AtSplits(s, sep, i);
    }
  }

  /** A character that is in no part and not in the separator is not in the
      joined text. */
  lemma {:induction false} JoinLacks(parts: seq<string>, sep: string, c: char)
    requires c !in sep && forall k :: 0 <= k < |parts| ==> c !in parts[k]
    ensures c !in Join(parts, sep)
  {
    if |parts| >= 2 {
      JoinLacks(parts[1..], sep, c);
      assert Join(parts, sep) == parts[0] + sep + Join(parts[1..], sep);
    }
  }

  lemma JoinCons(h: string, parts: seq<string>, sep: string)
    requires parts != []
    ensures Join([h] + parts, sep) == h + sep + Join(parts, sep)
  {
    assert ([h] + parts)[1..] == parts;
  }

  lemma AtSplits(s: string, t: string, i: nat)
    requires At(s, t, i)
    ensures s == s[..i] + t + s[i + |t|..]
  {
    assert s == s[..i] + s[i..i + |t|] + s[i + |t|..];
  }

  /** No part but the last contains the separator, and the last does not
      either unless `maxsplit` splits were made. */
  lemma {:induction false} SplitPartsFree(s: string, sep: string, maxsplit: int)
    requires sep != []
    ensures forall k :: 0 <= k < |Split(s, sep, maxsplit)| - 1 ==>
      !Contains(Split(s, sep, maxsplit)[k], sep)
    decreases |s|
  {
    var io := IndexOf(s, sep);
    if io.Some? && maxsplit != 0 {
      var i := io.value;
      var rest := s[i + |sep|..];
      var tail := Split(rest, sep, maxsplit - 1);
      SplitPartsFree(rest, sep, maxsplit - 1);
      assert forall k' :: 0 <= k' < |tail| - 1 ==> !Contains(tail[k'], sep);
      BeforeFirst(s, sep, i);
      var parts := Split(s, sep, maxsplit);
      assert parts == [s[..i]] + tail;
      forall k | 0 <= k < |parts| - 1 ensures !Contains(parts[k], sep) {
        if k > 0 {
          assert parts[k] == tail[k - 1];
          assert !Contains(tail[k - 1], sep);
        } else {
          assert parts[0] == s[..i];
          assert !Contains(s[..i], sep);
        }
      }
    }
  }

  lemma {:induction false} SplitLastFree(s: string, sep: string, maxsplit: int)
    requires sep != []
    ensures var parts := Split(s, sep, maxsplit);
      maxsplit < 0 || |parts| < maxsplit + 1 ==> !Contains(parts[|parts| - 1], sep)
    decreases |s|
  {
    var io := IndexOf(s, sep);
    if io.Some? && maxsplit != 0 {
      var i := io.value;
      var rest := s[i + |sep|..];
      SplitLastFree(rest, sep, maxsplit - 1);
      SplitLast(s, sep, maxsplit, i);
    }
  }

  /** Past the first separator, the last part is the last part of the rest. */
  lemma SplitLast(s: string, sep: string, maxsplit: int, i: nat)
    requires sep != [] && IndexOf(s, sep) == Some(i) && maxsplit != 0
    ensures var parts, tail := Split(s, sep, maxsplit), Split(s[i + |sep|..], sep, maxsplit - 1);
      |parts| == |tail| + 1 && parts[|parts| - 1] == tail[|tail| - 1]
  {
  }

  /** The text before the first occurrence of `t` does not contain `t`. */
  lemma BeforeFirst(s: string, t: string, i: nat)
    requires t != [] && IndexOf(s, t) == Some(i)
    ensures !Contains(s[..i], t)
  {
    forall j: nat | At(s[..i], t, j) ensures At(s, t, j) {
      assert s[..i][j..j + |t|] == s[j..j + |t|];
    }
  }

  /** Splitting on a single character with no limit gives one part more than
      there are occurrences of that character (Python's `s.count(c) + 1`). */
  lemma {:induction false} SplitCount(s: string, c: char, maxsplit: int)
    requires maxsplit < 0
    ensures |Split(s, [c], maxsplit)| == multiset(s)[c] + 1
    decreases |s|
  {
    var io := IndexOf(s, [c]);
    ContainsChar(s, c);
    if io.Some? {
      var i := io.value;
      var rest := s[i + 1..];
      SplitCount(rest, c, maxsplit - 1);
      assert Split(s, [c], maxsplit) == [s[..i]] + Split(rest, [c], maxsplit - 1);
      BeforeFirst(s, [c], i);
      ContainsChar(s[..i], c);
      AtSplits(s, [c], i);
      assert multiset(s) == multiset(s[..i]) + multiset([c]) + multiset(rest);
    }
  }

  /** For a one-character `t`, Python's `t in s` is membership. */
  lemma ContainsChar(s: string, c: char)
    ensures Contains(s, [c]) <==> c in s
  {
    if c in s {
      var k :| 0 <= k < |s| && s[k] == c;
      assert s[k..k + 1] == [c];
      ContainsAt(s, [c], k);
    }
    if Contains(s, [c]) {
      var i := IndexOf(s, [c]).value;
      assert s[i..i + 1][0] == s[i];
    }
  }

  /** A leading part free of a one-character separator splits off as the
      first part. */
  lemma SplitFirst(h: string, c: char, rest: string, maxsplit: int)
    requires c !in h && maxsplit != 0
    ensures Split(h + [c] + rest, [c], maxsplit) == [h] + Split(rest, [c], maxsplit - 1)
  {
    var s := h + [c] + rest;
    assert At(s, [c], |h|);
    var i := IndexOf(s, [c]).value;
    assert s[i..i + 1][0] == s[i] == c;
    assert s[..i] == h && s[i + 1..] == rest;
  }

  // ---------------------------------------------------------------------------
  // str.splitlines()

  /** The characters at which Python's `str.splitlines()` ends a line. */
  predicate IsLineBreak(c: char) {
    c == '\n' || c == '\r' || c == '\U{0B}' || c == '\U{0C}' ||
    ('\U{1C}' <= c <= '\U{1E}') || c == '\U{85}' || c == '\U{2028}' || c == '\U{2029}'
  }

  predicate NoLineBreak(s: string) {
    forall i :: 0 <= i < |s| ==> !IsLineBreak(s[i])
  }

  lemma NoLineBreakConcat(a: string, b: string)
    requires NoLineBreak(a) && NoLineBreak(b)
    ensures NoLineBreak(a + b)
  {
    forall i | |a| <= i < |a + b| ensures !IsLineBreak((a + b)[i]) {
      assert (a + b)[i] == b[i - |a|];
    }
  }

  /** Length of the first line of `s`. */
  function LineEnd(s: string): (k: nat)
    ensures k <= |s| && NoLineBreak(s[..k])
    ensures k < |s| ==> IsLineBreak(s[k])
  {
    if s == [] || IsLineBreak(s[0]) then 0
    else
      var k := LineEnd(s[1..]);
      assert s[..1 + k] == [s[0]] + s[1..][..k];
      1 + k
  }

  /** Python's `s.splitlines()`: `\r\n` ends a line as one break, and a break
      at the very end does not start another (empty) line. */
  function SplitLines(s: string): (lines: seq<string>)
    ensures forall k :: 0 <= k < |lines| ==> NoLineBreak(lines[k])
    decreases |s|
  {
    if s == [] then []
    else
      var k := LineEnd(s);
      if k == |s| then [s]
      else
        var next := if s[k] == '\r' && k + 1 < |s| && s[k + 1] == '\n' then k + 2 else k + 1;
        [s[..k]] + SplitLines(s[next..])
  }

  /** Text made of lines, each closed by `\n`, as a triple-quoted Python
      literal spanning several source lines is. */
  function LinesText(lines: seq<string>): string {
    if lines == [] then "" else lines[0] + "\n" + LinesText(lines[1..])
  }

  /** `splitlines()` takes `\n`-terminated lines apart again. */
  lemma {:induction false} SplitLinesOfText(lines: seq<string>)
    requires forall k :: 0 <= k < |lines| ==> NoLineBreak(lines[k])
    ensures SplitLines(LinesText(lines)) == lines
  {
    if lines != [] {
      var rest := LinesText(lines[1..]);
      var s := lines[0] + ['\n'] + rest;
      assert LinesText(lines) == s;
      LineEndOf(lines[0], '\n', rest);
      assert s[..|lines[0]|] == lines[0];
      assert s[|lines[0]| + 1..] == rest;
      SplitLinesOfText(lines[1..]);
      assert SplitLines(s) == [lines[0]] + SplitLines(rest);
    }
  }

  /** The first line ends at the first line break. */
  lemma {:induction false} LineEndOf(a: string, c: char, b: string)
    requires NoLineBreak(a) && IsLineBreak(c)
    ensures LineEnd(a + [c] + b) == |a|
  {
    if a != [] {
      assert (a + [c] + b)[1..] == a[1..] + [c] + b;
      LineEndOf(a[1..], c, b);
    }
  }

  /** A substring of one of the lines is a substring of the text. */
  lemma ContainsLinesText(lines: seq<string>, k: nat, t: string)
    requires k < |lines| && Contains(lines[k], t)
    ensures Contains(LinesText(lines), t)
    decreases k
  {
    if k == 0 {
      ContainsInfix("", lines[0], "\n" + LinesText(lines[1..]), t);
      assert "" + lines[0] + ("\n" + LinesText(lines[1..])) == LinesText(lines);
    } else {
      ContainsLinesText(lines[1..], k - 1, t);
      ContainsInfix(lines[0] + "\n", LinesText(lines[1..]), "", t);
      assert lines[0] + "\n" + LinesText(lines[1..]) + "" == LinesText(lines);
    }
  }

  // ---------------------------------------------------------------------------
  // int(s, base) for base 10 and base 16

  /** The value of an ASCII digit of base 16 or less. */
  function DigitValue(c: char): Option<nat> {
    if '0' <= c <= '9' then Some(c as nat - '0' as nat)
    else if 'a' <= c <= 'f' then Some(c as nat - 'a' as nat + 10)
    else if 'A' <= c <= 'F' then Some(c as nat - 'A' as nat + 10)
    else None
  }

  predicate IsDigitOf(c: char, base: nat) {
    DigitValue(c).Some? && DigitValue(c).value < base
  }

  predicate IsHexDigit(c: char) {
    IsDigitOf(c, 16)
  }

  /** The digit part accepted by `int()`: digits of the base, single
      underscores allowed between two digits. */
  predicate ValidDigits(d: string, base: nat) {
    d != [] && d[0] != '_' && d[|d| - 1] != '_' &&
    (forall i :: 0 <= i < |d| ==> d[i] == '_' || IsDigitOf(d[i], base)) &&
    (forall i :: 0 <= i < |d| - 1 ==> d[i] == '_' ==> d[i + 1] != '_')
  }

  /** The number the digits of `d` spell in `base`, underscores ignored. */
  function DigitsValue(d: string, base: nat): nat {
    if d == [] then 0
    else
      var c := d[|d| - 1];
      var v := DigitsValue(d[..|d| - 1], base);
      if c == '_' then v
      else v * base + (if DigitValue(c).Some? then DigitValue(c).value else 0)
  }

  /** Python's `int(s, base)` for base 10 or 16: surrounding whitespace, a
      sign, for base 16 a `0x`/`0X` prefix (optionally followed by one
      underscore), then `ValidDigits`. `None` stands for the `ValueError`. */
  function ParseInt(s: string, base: nat): Option<int>
    requires base == 10 || base == 16
  {
    ParseStripped(Strip(s), base)
  }

  /** `int()` of a string without surrounding whitespace. */
  function ParseStripped(t: string, base: nat): Option<int>
    requires base == 10 || base == 16
  {
    if t != [] && (t[0] == '+' || t[0] == '-') then
      match ParseMagnitude(t[1..], base)
      case None => None
      case Some(m) => Some(if t[0] == '-' then -(m as int) else m as int)
    else
      match ParseMagnitude(t, base)
      case None => None
      case Some(m) => Some(m as int)
  }

  /** The digits after the sign: for base 16 an optional `0x`/`0X` prefix,
      which one underscore may follow. */
  function ParseMagnitude(u: string, base: nat): Option<nat>
    requires base == 10 || base == 16
  {
    var d := DropRadixPrefix(u, base);
    if ValidDigits(d, base) then Some(DigitsValue(d, base)) else None
  }

  function DropRadixPrefix(u: string, base: nat): (d: string)
    ensures |d| <= |u|
  {
    if base == 16 && |u| >= 2 && u[0] == '0' && (u[1] == 'x' || u[1] == 'X') then
      if |u| > 2 && u[2] == '_' then u[3..] else u[2..]
    else u
  }

  /** `int()` sees only what is left after stripping. */
  lemma ParseIntOfStrip(a: string, b: string, base: nat)
    requires base == 10 || base == 16
    requires Strip(a) == Strip(b)
    ensures ParseInt(a, base) == ParseInt(b, base)
  {
  }
}
