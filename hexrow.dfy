/** `get_valuelist_from_one_line`, the nested helper of `get_special_data`
    (src/py_bluetoothctl_scan.py) that decodes one row of a hex dump, and the
    layout of the rows that `bluetoothctl info` prints. */
module HexRow {
  import opened Wrappers
  import opened PyStr

  /** Each part parsed with `int(part, 16)`; `None` where it raises. */
  function ParseAll(parts: seq<string>): (r: seq<Option<int>>)
    ensures |r| == |parts|
  {
    if parts == [] then [] else [ParseInt(parts[0], 16)] + ParseAll(parts[1..])
  }

  lemma {:induction false} ParseAllIndex(parts: seq<string>, k: nat)
    requires k < |parts|
    ensures ParseAll(parts)[k] == ParseInt(parts[k], 16)
    decreases k
  {
    if k > 0 {
      ParseAllIndex(parts[1..], k - 1);
    }
  }

  /** The values parsed before the first part that fails. `None` when every
      part parses: the `while True` around the pass then never exits. */
  function ParsePrefix(vals: seq<Option<int>>): (r: Option<seq<int>>)
    ensures r.Some? ==> |r.value| < |vals|
  {
    if vals == [] then None
    else if vals[0].None? then Some([])
    else match ParsePrefix(vals[1..])
      case None => None
      case Some(vs) => Some([vals[0].value] + vs)
  }

  /** What one row decodes to: the line is stripped, split on single spaces
      into at most 17 parts, and the parts are parsed in base 16. */
  function RowValues(line: string): (r: Option<seq<int>>)
    ensures r.Some? ==> |r.value| <= 16
  {
    ParsePrefix(ParseAll(Split(Strip(line), " ", 16)))
  }

  /** `ParsePrefix` stops exactly at the first part that fails, and fails
      only when every part parses. */
  lemma {:induction false} ParsePrefixMeaning(vals: seq<Option<int>>)
    ensures var r := ParsePrefix(vals);
      (r.Some? ==> vals[|r.value|].None? && forall j :: 0 <= j < |r.value| ==> vals[j] == Some(r.value[j])) &&
      (r.None? <==> forall j :: 0 <= j < |vals| ==> vals[j].Some?)
  {
    if vals != [] && vals[0].Some? {
      ParsePrefixMeaning(vals[1..]);
      assert forall j :: 1 <= j < |vals| ==> vals[j] == vals[1..][j - 1];
    }
  }

  function Prepend(values: seq<int>, o: Option<seq<int>>): Option<seq<int>> {
    match o
    case None => None
    case Some(vs) => Some(values + vs)
  }

  /** `get_valuelist_from_one_line(line)`. `None` stands for the call that
      never returns: when every part parses, the `while True` splits the same
      line again and repeats this pass for ever. */
  method DecodeRow(line: string) returns (r: Option<seq<int>>)
    ensures r == RowValues(line)
  {
    var parts := Split(Strip(line), " ", 16);
    ghost var vals := ParseAll(parts);
    var values: seq<int> := [];
    var i := 0;
    PrependNil(vals);
    while i < |parts|
      invariant 0 <= i <= |parts|
      invariant Prepend(values, ParsePrefix(vals[i..])) == ParsePrefix(vals)
    {
      var v := ParseInt(parts[i], 16);
      ParseAllIndex(parts, i);
      PrefixStep(vals, i);
      if v.None? {
        assert values + [] == values;
        return Some(values);
      }
      PrependSnoc(values, v.value, ParsePrefix(vals[i + 1..]));
      values := values + [v.value];
      i := i + 1;
    }
    assert vals[i..] == [];
    return None;
  }

  lemma PrependNil(vals: seq<Option<int>>)
    ensures Prepend([], ParsePrefix(vals[0..])) == ParsePrefix(vals)
  {
    assert vals[0..] == vals;
    if ParsePrefix(vals).Some? {
      assert [] + ParsePrefix(vals).value == ParsePrefix(vals).value;
    }
  }

  lemma PrefixStep(vals: seq<Option<int>>, i: nat)
    requires i < |vals|
    ensures vals[i].None? ==> ParsePrefix(vals[i..]) == Some([])
    ensures vals[i].Some? ==> ParsePrefix(vals[i..]) == Prepend([vals[i].value], ParsePrefix(vals[i + 1..]))
  {
    assert vals[i..][0] == vals[i];
    assert vals[i..][1..] == vals[i + 1..];
  }

  lemma PrependSnoc(values: seq<int>, v: int, o: Option<seq<int>>)
    ensures Prepend(values, Prepend([v], o)) == Prepend(values + [v], o)
  {
    if o.Some? {
      assert values + ([v] + o.value) == values + [v] + o.value;
    }
  }

  // ---------------------------------------------------------------------------
  // The rows `bluetoothctl info` prints

  function HexDigitChar(d: nat): (c: char)
    requires d < 16
    ensures DigitValue(c) == Some(d)
  {
    if d < 10 then ('0' as int + d) as char else ('a' as int + d - 10) as char
  }

  /** A byte as two lower-case hex digits, as `%02x` prints it. */
  function TwoHex(b: int): string
    requires 0 <= b < 256
  {
    [HexDigitChar(b / 16), HexDigitChar(b % 16)]
  }

  predicate IsBytes(bytes: seq<int>) {
    forall k :: 0 <= k < |bytes| ==> 0 <= bytes[k] < 256
  }

  function HexTokens(bytes: seq<int>): (r: seq<string>)
    requires IsBytes(bytes)
    ensures |r| == |bytes| && forall k :: 0 <= k < |r| ==> r[k] == TwoHex(bytes[k])
  {
    if bytes == [] then [] else [TwoHex(bytes[0])] + HexTokens(bytes[1..])
  }

  /** One row of a hex dump of 1 to 16 bytes: two spaces, the bytes as hex
      pairs separated by single spaces and padded to 47 columns, two spaces,
      then the ASCII rendering of the bytes. */
  function HexDumpRow(bytes: seq<int>, ascii: string): string
    requires 1 <= |bytes| <= 16 && IsBytes(bytes)
  {
    "  " + Join(HexTokens(bytes), " ") + " " + DumpRest(|bytes|, ascii)
  }

  /** The part of a row after the space that follows the last hex pair:
      the padding, the two-space gap's second space and the ASCII column. */
  function DumpRest(n: nat, ascii: string): string
    requires 1 <= n <= 16
  {
    Spaces(48 - 3 * n) + " " + ascii
  }

  lemma ParseTwoHex(b: int)
    requires 0 <= b < 256
    ensures ParseInt(TwoHex(b), 16) == Some(b)
  {
    var t := TwoHex(b);
    assert t == [t[0], t[1]];
    ParseHexPair(t[0], t[1]);
  }

  /** Two hex digits parse to the byte they spell. */
  lemma ParseHexPair(c0: char, c1: char)
    requires IsHexDigit(c0) && IsHexDigit(c1)
    ensures ParseInt([c0, c1], 16) == Some(DigitValue(c0).value * 16 + DigitValue(c1).value)
  {
    var t := [c0, c1];
    StripOfPadded("", t, "");
    assert "" + t + "" == t;
    assert c0 != '+' && c0 != '-' && c0 != '_' && c1 != '_' && c1 != 'x' && c1 != 'X';
    assert DropRadixPrefix(t, 16) == t;
    assert ValidDigits(t, 16);
    assert DigitsValue([c0], 16) == DigitValue(c0).value by {
      assert [c0][..0] == [];
    }
    assert t[..|t| - 1] == [c0];
    assert ParseMagnitude(t, 16) == Some(DigitsValue(t, 16));
  }

  /** A part that does not start with a hex digit, a sign or whitespace does
      not parse. */
  lemma ParseIntNonDigitStart(p: string)
    requires p != [] && !IsHexDigit(p[0]) && !IsSpace(p[0]) && p[0] != '+' && p[0] != '-'
    ensures ParseInt(p, 16).None?
  {
    var t := Strip(p);
    assert LeadingSpace(p) == 0;
    if t != [] {
      assert t[0] == p[0];
    }
  }

  /** `int(p, 16)` fails on a part whose first character is a hex digit
      other than `0` and whose second is neither a hex digit, `_` nor space. */
  lemma ParseIntBadSecond(p: string)
    requires |p| >= 2 && IsHexDigit(p[0]) && p[0] != '0' && !IsSpace(p[0])
    requires !IsHexDigit(p[1]) && p[1] != '_' && !IsSpace(p[1])
    ensures ParseInt(p, 16).None?
  {
    var t := Strip(p);
    assert LeadingSpace(p) == 0;
    assert t[0] == p[0] && t[1] == p[1];
    assert DropRadixPrefix(t, 16) == t;
    assert !ValidDigits(t, 16) by {
      assert !(t[1] == '_' || IsDigitOf(t[1], 16));
    }
  }

  /** A stripped line whose first character is not a hex digit or a sign
      decodes to no values (the first part already fails). */
  lemma RowValuesNonHexStart(line: string)
    requires var s := Strip(line); s != [] && !IsHexDigit(s[0]) && s[0] != '+' && s[0] != '-'
    ensures RowValues(line) == Some([])
  {
    var s := Strip(line);
    var parts := Split(s, " ", 16);
    if parts[0] != [] {
      assert parts[0][0] == s[0] by {
        match IndexOf(s, " ")
        case None =>
        case Some(i) =>
      }
      ParseIntNonDigitStart(parts[0]);
    } else {
      assert ParseInt(parts[0], 16).None? by {
        assert Strip(parts[0]) == [];
      }
    }
  }

  /** Parsing a list that starts with parts that all parse. */
  lemma {:induction false} ParsePrefixAppend(values: seq<int>, tail: seq<Option<int>>)
    ensures ParsePrefix(Somes(values) + tail) == Prepend(values, ParsePrefix(tail))
  {
    if values != [] {
      assert Somes(values) + tail == [Some(values[0])] + (Somes(values[1..]) + tail);
      ParsePrefixCons(values[0], Somes(values[1..]) + tail);
      ParsePrefixAppend(values[1..], tail);
      PrependCons(values[0], values[1..], ParsePrefix(tail));
      assert [values[0]] + values[1..] == values;
    } else {
      assert Somes(values) + tail == tail;
      if ParsePrefix(tail).Some? {
        assert values + ParsePrefix(tail).value == ParsePrefix(tail).value;
      }
    }
  }

  lemma ParsePrefixCons(v: int, rest: seq<Option<int>>)
    ensures ParsePrefix([Some(v)] + rest) == Prepend([v], ParsePrefix(rest))
  {
    assert ([Some(v)] + rest)[1..] == rest;
  }

  lemma PrependCons(v: int, values: seq<int>, o: Option<seq<int>>)
    ensures Prepend([v], Prepend(values, o)) == Prepend([v] + values, o)
  {
    if o.Some? {
      assert [v] + (values + o.value) == [v] + values + o.value;
    }
  }

  function Somes(values: seq<int>): (r: seq<Option<int>>)
    ensures |r| == |values| && forall k :: 0 <= k < |r| ==> r[k] == Some(values[k])
  {
    if values == [] then [] else [Some(values[0])] + Somes(values[1..])
  }

  lemma ParseAllAppend(a: seq<string>, b: seq<string>)
    ensures ParseAll(a + b) == ParseAll(a) + ParseAll(b)
  {
    assert |ParseAll(a + b)| == |ParseAll(a) + ParseAll(b)|;
    forall k | 0 <= k < |a + b| ensures ParseAll(a + b)[k] == (ParseAll(a) + ParseAll(b))[k] {
      ParseAllIndex(a + b, k);
      if k < |a| {
        assert (a + b)[k] == a[k];
        ParseAllIndex(a, k);
      } else {
        assert (a + b)[k] == b[k - |a|];
        ParseAllIndex(b, k - |a|);
      }
    }
  }

  /** Splitting single-space-joined tokens that contain no space. */
  lemma {:induction false} SplitJoinedTokens(tokens: seq<string>, rest: string, m: int)
    requires tokens != [] && |tokens| <= m
    requires forall k :: 0 <= k < |tokens| ==> ' ' !in tokens[k]
    ensures Split(Join(tokens, " ") + " " + rest, " ", m) == tokens + Split(rest, " ", m - |tokens|)
  {
    if |tokens| == 1 {
      SplitJoinedToken(tokens, rest, m);
    } else {
      assert forall k :: 0 <= k < |tokens[1..]| ==> ' ' !in tokens[1..][k] by {
        forall k | 0 <= k < |tokens[1..]| ensures ' ' !in tokens[1..][k] {
          assert tokens[1..][k] == tokens[k + 1];
        }
      }
      SplitJoinedTokens(tokens[1..], rest, m - 1);
      SplitJoinedMore(tokens, rest, m);
    }
  }

  /** One step of `SplitJoinedTokens`: the first token comes off, given the
      rest split as claimed. */
  lemma SplitJoinedMore(tokens: seq<string>, rest: string, m: int)
    requires 2 <= |tokens| <= m && ' ' !in tokens[0]
    requires Split(Join(tokens[1..], " ") + " " + rest, " ", m - 1) == tokens[1..] + Split(rest, " ", m - |tokens|)
    ensures Split(Join(tokens, " ") + " " + rest, " ", m) == tokens + Split(rest, " ", m - |tokens|)
  {
    var more := Join(tokens[1..], " ") + " " + rest;
    JoinedStep(tokens, rest);
    SplitFirst(tokens[0], ' ', more, m);
    assert [tokens[0]] + (tokens[1..] + Split(rest, " ", m - |tokens|)) == tokens + Split(rest, " ", m - |tokens|);
  }

  lemma SplitJoinedToken(tokens: seq<string>, rest: string, m: int)
    requires |tokens| == 1 && 1 <= m && ' ' !in tokens[0]
    ensures Split(Join(tokens, " ") + " " + rest, " ", m) == tokens + Split(rest, " ", m - 1)
  {
    assert Join(tokens, " ") == tokens[0];
    SplitFirst(tokens[0], ' ', rest, m);
    assert [tokens[0]] == tokens;
  }

  lemma JoinedStep(tokens: seq<string>, rest: string)
    requires |tokens| >= 2
    ensures Join(tokens, " ") + " " + rest == tokens[0] + [' '] + (Join(tokens[1..], " ") + " " + rest)
  {
    JoinCons(tokens[0], tokens[1..], " ");
    assert [tokens[0]] + tokens[1..] == tokens;
  }

  lemma HexTokensNoSpace(bytes: seq<int>)
    requires IsBytes(bytes)
    ensures forall k :: 0 <= k < |bytes| ==> ' ' !in HexTokens(bytes)[k]
  {
    forall k | 0 <= k < |bytes| ensures ' ' !in HexTokens(bytes)[k] {
      var t := TwoHex(bytes[k]);
      assert t == [t[0], t[1]];
    }
  }

  lemma StripHexDumpRow(bytes: seq<int>, ascii: string, trail: string)
    requires 1 <= |bytes| <= 16 && IsBytes(bytes)
    requires ascii != [] && !IsSpace(ascii[0]) && !IsSpace(ascii[|ascii| - 1]) && AllSpace(trail)
    ensures Strip(HexDumpRow(bytes, ascii) + trail) ==
      Join(HexTokens(bytes), " ") + " " + DumpRest(|bytes|, ascii)
  {
    var tokens := HexTokens(bytes);
    var rest := DumpRest(|bytes|, ascii);
    assert Join(tokens, " ") != [] && !IsSpace(Join(tokens, " ")[0]) by {
      assert tokens[0] == TwoHex(bytes[0]);
      JoinFirstChar(tokens);
    }
    assert rest[|rest| - 1] == ascii[|ascii| - 1];
    calc {
      Strip(HexDumpRow(bytes, ascii) + trail);
      { assert HexDumpRow(bytes, ascii) + trail == "  " + Join(tokens, " ") + " " + rest + trail; }
      Strip("  " + Join(tokens, " ") + " " + rest + trail);
      { StripBetweenSpaces(Join(tokens, " "), rest, trail); }
      Join(tokens, " ") + " " + rest;
    }
  }

  lemma StripBetweenSpaces(joined: string, rest: string, trail: string)
    requires joined != [] && !IsSpace(joined[0])
    requires rest != [] && !IsSpace(rest[|rest| - 1]) && AllSpace(trail)
    ensures Strip("  " + joined + " " + rest + trail) == joined + " " + rest
  {
    var core := joined + " " + rest;
    assert core[0] == joined[0];
    assert core[|core| - 1] == rest[|rest| - 1];
    assert "  " + joined + " " + rest + trail == "  " + core + trail;
    StripOfPadded("  ", core, trail);
  }

  lemma ParseHexTokens(bytes: seq<int>)
    requires IsBytes(bytes)
    ensures ParseAll(HexTokens(bytes)) == Somes(bytes)
  {
    forall k | 0 <= k < |bytes| ensures ParseAll(HexTokens(bytes))[k] == Somes(bytes)[k] {
      ParseAllIndex(HexTokens(bytes), k);
      ParseTwoHex(bytes[k]);
    }
  }

  /** Behind a short row's tokens comes an empty part, which fails. */
  lemma ShortRowTail(n: nat, ascii: string)
    requires 1 <= n < 16
    ensures ParsePrefix(ParseAll(Split(DumpRest(n, ascii), " ", 16 - n))) == Some([])
  {
    var more := Spaces(48 - 3 * n - 1) + " " + ascii;
    assert DumpRest(n, ascii) == "" + [' '] + more;
    SplitFirst("", ' ', more, 16 - n);
    assert Strip("") == "";
    assert ParseInt("", 16).None?;
  }

  /** Behind a full row's tokens comes the ASCII column as a 17th part. */
  lemma FullRowTail(ascii: string)
    requires ascii != [] && !IsSpace(ascii[0]) && !IsSpace(ascii[|ascii| - 1])
    ensures ParseAll(Split(DumpRest(16, ascii), " ", 0)) == [ParseInt(ascii, 16)]
  {
    calc {
      ParseAll(Split(DumpRest(16, ascii), " ", 0));
      { assert DumpRest(16, ascii) == " " + ascii; }
      ParseAll(Split(" " + ascii, " ", 0));
      ParseAll([" " + ascii]);
      { assert [" " + ascii][1..] == []; }
      [ParseInt(" " + ascii, 16)];
      { SameStrip(" " + ascii, ascii); }
      [ParseInt(ascii, 16)];
    }
  }

  lemma SameStrip(s: string, ascii: string)
    requires ascii != [] && !IsSpace(ascii[0]) && !IsSpace(ascii[|ascii| - 1])
    requires s == " " + ascii
    ensures ParseInt(s, 16) == ParseInt(ascii, 16)
  {
    calc {
      Strip(s);
      { assert s == " " + ascii + ""; }
      Strip(" " + ascii + "");
      { StripOfPadded(" ", ascii, ""); }
      ascii;
      { StripOfPadded("", ascii, ""); assert "" + ascii + "" == ascii; }
      Strip(ascii);
    }
    ParseIntOfStrip(s, ascii, 16);
  }

  /** Decoding a row of the hex-dump layout gives back its bytes; the ASCII
      column is left out because the part before it is empty, except on a
      full 16-byte row, where the ASCII column is the 17th part and a column
      that `int(_, 16)` accepts makes the `while True` spin for ever. */
  lemma DecodeHexDumpRow(bytes: seq<int>, ascii: string, trail: string)
    requires 1 <= |bytes| <= 16 && IsBytes(bytes)
    requires ascii != [] && !IsSpace(ascii[0]) && !IsSpace(ascii[|ascii| - 1]) && AllSpace(trail)
    ensures RowValues(HexDumpRow(bytes, ascii) + trail) ==
      if |bytes| == 16 && ParseInt(ascii, 16).Some? then None else Some(bytes)
  {
    var tail := Split(DumpRest(|bytes|, ascii), " ", 16 - |bytes|);
    RowParts(bytes, ascii, trail);
    ParseAllAppend(HexTokens(bytes), tail);
    ParseHexTokens(bytes);
    ParsePrefixAppend(bytes, ParseAll(tail));
    RowTail(bytes, ascii);
  }

  /** The parts of a row: its hex pairs, then what follows them. */
  lemma RowParts(bytes: seq<int>, ascii: string, trail: string)
    requires 1 <= |bytes| <= 16 && IsBytes(bytes)
    requires ascii != [] && !IsSpace(ascii[0]) && !IsSpace(ascii[|ascii| - 1]) && AllSpace(trail)
    ensures Split(Strip(HexDumpRow(bytes, ascii) + trail), " ", 16) ==
      HexTokens(bytes) + Split(DumpRest(|bytes|, ascii), " ", 16 - |bytes|)
  {
    StripHexDumpRow(bytes, ascii, trail);
    HexTokensNoSpace(bytes);
    SplitJoinedTokens(HexTokens(bytes), DumpRest(|bytes|, ascii), 16);
  }

  /** What the parts behind the hex pairs contribute. */
  lemma RowTail(bytes: seq<int>, ascii: string)
    requires 1 <= |bytes| <= 16
    requires ascii != [] && !IsSpace(ascii[0]) && !IsSpace(ascii[|ascii| - 1])
    ensures Prepend(bytes, ParsePrefix(ParseAll(Split(DumpRest(|bytes|, ascii), " ", 16 - |bytes|)))) ==
      if |bytes| == 16 && ParseInt(ascii, 16).Some? then None else Some(bytes)
  {
    if |bytes| < 16 {
      ShortRowPrepend(bytes, ascii);
    } else {
      FullRowPrepend(bytes, ascii);
    }
  }

  lemma ShortRowPrepend(bytes: seq<int>, ascii: string)
    requires 1 <= |bytes| < 16
    ensures Prepend(bytes, ParsePrefix(ParseAll(Split(DumpRest(|bytes|, ascii), " ", 16 - |bytes|)))) == Some(bytes)
  {
    ShortRowTail(|bytes|, ascii);
    assert bytes + [] == bytes;
  }

  lemma FullRowPrepend(bytes: seq<int>, ascii: string)
    requires |bytes| == 16
    requires ascii != [] && !IsSpace(ascii[0]) && !IsSpace(ascii[|ascii| - 1])
    ensures Prepend(bytes, ParsePrefix(ParseAll(Split(DumpRest(16, ascii), " ", 0)))) ==
      if ParseInt(ascii, 16).Some? then None else Some(bytes)
  {
    FullRowTail(ascii);
    SingleTail(bytes, ParseInt(ascii, 16));
  }

  lemma SingleTail(bytes: seq<int>, v: Option<int>)
    ensures Prepend(bytes, ParsePrefix([v])) == if v.Some? then None else Some(bytes)
  {
    assert [v][1..] == [];
    assert bytes + [] == bytes;
  }

  lemma JoinFirstChar(tokens: seq<string>)
    requires tokens != [] && tokens[0] != []
    ensures Join(tokens, " ") != [] && Join(tokens, " ")[0] == tokens[0][0]
  {
  }
  /** Besides its ASCII column and what trails it, a row holds only spaces
      and hex digits. */
  lemma HexDumpRowLacks(bytes: seq<int>, ascii: string, trail: string, c: char)
    requires 1 <= |bytes| <= 16 && IsBytes(bytes)
    requires c != ' ' && !IsHexDigit(c) && c !in ascii && c !in trail
    ensures c !in HexDumpRow(bytes, ascii) + trail
  {
    var tokens := HexTokens(bytes);
    forall k | 0 <= k < |tokens| ensures c !in tokens[k] {
      var t := TwoHex(bytes[k]);
      assert t == [t[0], t[1]];
    }
    JoinLacks(tokens, " ", c);
    var n := 48 - 3 * |bytes|;
    assert c !in Spaces(n);
  }

  /** A row breaks no line where its ASCII column and trail do not. */
  lemma HexDumpRowNoLineBreak(bytes: seq<int>, ascii: string, trail: string)
    requires 1 <= |bytes| <= 16 && IsBytes(bytes)
    requires NoLineBreak(ascii) && NoLineBreak(trail)
    ensures NoLineBreak(HexDumpRow(bytes, ascii) + trail)
  {
    var row := HexDumpRow(bytes, ascii) + trail;
    forall i | 0 <= i < |row| ensures !IsLineBreak(row[i]) {
      var c := row[i];
      if IsLineBreak(c) {
        assert c !in ascii && c !in trail;
        HexDumpRowLacks(bytes, ascii, trail, c);
        assert false;
      }
    }
  }
}
