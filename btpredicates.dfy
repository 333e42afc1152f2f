/** The small tests of src/btcommon.py: `is_bt_address`, which accepts the
    three spellings of a Bluetooth address by their length and separators,
    and `is_honeywell_scanner_msg` / `strip_honeywell_header`, which
    recognise and cut off the 21-character decode header a Honeywell
    scanner puts before its data. */
module BtPredicates {
  import opened Wrappers
  import opened PyStr

  // ---------------------------------------------------------------------------
  // is_bt_address

  /** `is_bt_address(s)`: 17 characters with five `-` or five `:`, or 12
      characters that `int(s, 16)` accepts. */
  predicate IsBtAddress(s: string) {
    if |s| == 17 then Count(s, '-') == 5 || Count(s, ':') == 5
    else if |s| == 12 then ParseInt(s, 16).Some?
    else false
  }

  /** Python's `s.count(c)` for one character. */
  function Count(s: string, c: char): (n: nat)
    ensures n <= |s|
  {
    if s == [] then 0 else (if s[0] == c then 1 else 0) + Count(s[1..], c)
  }

  lemma {:induction false} CountAppend(a: string, b: string, c: char)
    ensures Count(a + b, c) == Count(a, c) + Count(b, c)
  {
    if a != [] {
      assert (a + b)[1..] == a[1..] + b;
      CountAppend(a[1..], b, c);
    } else {
      assert a + b == b;
    }
  }

  /** Only the lengths 17 and 12 are accepted. */
  lemma AddressLength(s: string)
    requires IsBtAddress(s)
    ensures |s| == 17 || |s| == 12
  {
  }

  /** Six two-character groups joined by `:` or by `-` make an address. */
  lemma SeparatedAddress(g: seq<string>, sep: char)
    requires sep == ':' || sep == '-'
    requires |g| == 6 && forall k :: 0 <= k < 6 ==> |g[k]| == 2 && sep !in g[k]
    ensures IsBtAddress(Join(g, [sep]))
  {
    JoinCount(g, sep);
    JoinLength(g, sep);
  }

  lemma {:induction false} CountAbsent(s: string, c: char)
    requires c !in s
    ensures Count(s, c) == 0
  {
    if s != [] {
      CountAbsent(s[1..], c);
    }
  }

  /** Joining parts free of `sep` with `sep` puts in one `sep` fewer than
      there are parts. */
  lemma {:induction false} JoinCount(g: seq<string>, sep: char)
    requires g != [] && forall k :: 0 <= k < |g| ==> sep !in g[k]
    ensures Count(Join(g, [sep]), sep) == |g| - 1
  {
    CountAbsent(g[0], sep);
    if |g| > 1 {
      JoinCount(g[1..], sep);
      assert Join(g, [sep]) == g[0] + ([sep] + Join(g[1..], [sep]));
      CountAppend(g[0], [sep] + Join(g[1..], [sep]), sep);
      CountAppend([sep], Join(g[1..], [sep]), sep);
    }
  }

  lemma {:induction false} JoinLength(g: seq<string>, sep: char)
    requires g != [] && forall k :: 0 <= k < |g| ==> |g[k]| == 2
    ensures |Join(g, [sep])| == 3 * |g| - 1
  {
    if |g| > 1 {
      JoinLength(g[1..], sep);
    }
  }

  /** Twelve hex digits make an address. */
  lemma HexAddress(s: string)
    requires |s| == 12 && forall i :: 0 <= i < 12 ==> IsHexDigit(s[i])
    ensures IsBtAddress(s)
  {
    HexStripped(s);
    assert DropRadixPrefix(s, 16) == s by {
      assert IsHexDigit(s[1]);
    }
    assert ValidDigits(s, 16);
    assert ParseMagnitude(s, 16).Some?;
    assert IsHexDigit(s[0]);
  }

  lemma HexStripped(s: string)
    requires |s| == 12 && forall i :: 0 <= i < 12 ==> IsHexDigit(s[i])
    ensures Strip(s) == s
  {
    assert IsHexDigit(s[0]) && IsHexDigit(s[11]);
    StripOfPadded("", s, "");
    assert "" + s + "" == s;
  }

  /** The test looks at nothing but length and separator count, so text
      that is no address at all passes: here `"no-ad-dr-es-s!-??"`. */
  lemma DashesSuffice()
    ensures IsBtAddress(Join(["no", "ad", "dr", "es", "s!", "??"], "-"))
  {
    SeparatedAddress(["no", "ad", "dr", "es", "s!", "??"], '-');
  }

  /** The doctests of `is_bt_address`; the first is the text
      `"6D-01-5E-34-31-1A"`. */
  lemma DashedExample()
    ensures IsBtAddress(Join(["6D", "01", "5E", "34", "31", "1A"], "-"))
  {
    SeparatedAddress(["6D", "01", "5E", "34", "31", "1A"], '-');
  }

  /** The second doctest, the text `"F4:9A:7C:BE:5F:2A"`. */
  lemma ColonExample()
    ensures IsBtAddress(Join(["F4", "9A", "7C", "BE", "5F", "2A"], ":"))
  {
    SeparatedAddress(["F4", "9A", "7C", "BE", "5F", "2A"], ':');
  }

  lemma HexExample()
    ensures IsBtAddress("F49A7CBE5F2A")
  {
    HexAddress("F49A7CBE5F2A");
  }

  lemma WordExample()
    ensures !IsBtAddress("something")
  {
  }

  // ---------------------------------------------------------------------------
  // is_honeywell_scanner_msg and strip_honeywell_header

  newtype byte = x: int | 0 <= x < 256

  /** What the functions receive: a `str` or a `bytes` object. */
  datatype Data = Text(s: string) | Bytes(b: seq<byte>)

  predicate HasPrefix<T(==)>(s: seq<T>, p: seq<T>) {
    |p| <= |s| && s[..|p|] == p
  }

  /** `t` occurs in `s` at `i`. */
  predicate InfixAt<T(==)>(s: seq<T>, t: seq<T>, i: nat) {
    i + |t| <= |s| && s[i..i + |t|] == t
  }

  /** `t in s` for sequences. */
  predicate HasInfix<T(==)>(s: seq<T>, t: seq<T>) {
    exists i: nat | i <= |s| :: InfixAt(s, t, i)
  }

  /** The decode header starts with SYN (0x16) and 0xFE. */
  const TextLead: string := ['\U{16}', '\U{FE}']
  const ByteLead: seq<byte> := [0x16, 0xFE]
  const TextMarker: string := "MSGGET"
  const ByteMarker: seq<byte> := [0x4D, 0x53, 0x47, 0x47, 0x45, 0x54]

  /** Length of the header `strip_honeywell_header` cuts off. */
  const HeaderLength := 21

  /** `is_honeywell_scanner_msg(msg)`. */
  predicate IsHoneywellMsg(msg: Data) {
    match msg
    case Text(s) => HasPrefix(s, TextLead) && HasInfix(s, TextMarker)
    case Bytes(b) => HasPrefix(b, ByteLead) && HasInfix(b, ByteMarker)
  }

  /** Python's `s[n:]`: empty when `s` is shorter than `n`. */
  function DropFront<T>(s: seq<T>, n: nat): (r: seq<T>)
    ensures |r| == if |s| < n then 0 else |s| - n
    ensures forall i :: 0 <= i < |r| ==> r[i] == s[n + i]
  {
    if |s| < n then [] else s[n..]
  }

  /** `strip_honeywell_header(data)`: a scanner message loses its first 21
      characters (or bytes), anything else comes back unchanged. */
  function StripHoneywellHeader(data: Data): (r: Data)
    ensures r.Text? <==> data.Text?
    ensures !IsHoneywellMsg(data) ==> r == data
    ensures IsHoneywellMsg(data) && data.Text? ==> r.s == DropFront(data.s, HeaderLength)
    ensures IsHoneywellMsg(data) && data.Bytes? ==> r.b == DropFront(data.b, HeaderLength)
  {
    if IsHoneywellMsg(data) then
      match data
      case Text(s) => Text(DropFront(s, HeaderLength))
      case Bytes(b) => Bytes(DropFront(b, HeaderLength))
    else data
  }

  /** An occurrence stays one when more is appended. */
  lemma InfixAppend<T>(a: seq<T>, b: seq<T>, t: seq<T>)
    requires HasInfix(a, t)
    ensures HasInfix(a + b, t)
  {
    var i: nat :| i <= |a| && InfixAt(a, t, i);
    assert (a + b)[i..i + |t|] == a[i..i + |t|];
    assert InfixAt(a + b, t, i);
  }

  /** A 21-character header that starts with the lead and holds the marker
      comes off whole: the payload after it is returned as it was. */
  lemma StripTextHeader(header: string, payload: string)
    requires |header| == HeaderLength && HasPrefix(header, TextLead) && HasInfix(header, TextMarker)
    ensures StripHoneywellHeader(Text(header + payload)) == Text(payload)
  {
    var s := header + payload;
    assert s[..2] == header[..2];
    InfixAppend(header, payload, TextMarker);
    assert s[21..] == payload;
  }

  lemma StripByteHeader(header: seq<byte>, payload: seq<byte>)
    requires |header| == HeaderLength && HasPrefix(header, ByteLead) && HasInfix(header, ByteMarker)
    ensures StripHoneywellHeader(Bytes(header + payload)) == Bytes(payload)
  {
    var s := header + payload;
    assert s[..2] == header[..2];
    InfixAppend(header, payload, ByteMarker);
    assert s[21..] == payload;
  }

  /** `bt` holds the codes of the characters of `t`. */
  predicate SameCodes(t: string, bt: seq<byte>) {
    |bt| == |t| && forall k :: 0 <= k < |t| ==> bt[k] as int == t[k] as int
  }

  /** The Latin-1 bytes of a text whose characters are all below 256. */
  function Latin1(s: string): (b: seq<byte>)
    requires forall i :: 0 <= i < |s| ==> (s[i] as int) < 256
    ensures SameCodes(s, b)
  {
    if s == [] then [] else [s[0] as int as byte] + Latin1(s[1..])
  }

  /** A `str` and its Latin-1 `bytes` are told apart the same way. */
  lemma TextAndBytesAgree(s: string)
    requires forall i :: 0 <= i < |s| ==> (s[i] as int) < 256
    ensures IsHoneywellMsg(Text(s)) <==> IsHoneywellMsg(Bytes(Latin1(s)))
  {
    var b := Latin1(s);
    Codes();
    PrefixAgrees(s, b, TextLead, ByteLead);
    if HasInfix(s, TextMarker) {
      InfixToBytes(s, b, TextMarker, ByteMarker);
    }
    if HasInfix(b, ByteMarker) {
      InfixFromBytes(s, b, TextMarker, ByteMarker);
    }
  }

  /** The byte of each character of the lead and the marker. */
  lemma Codes()
    ensures SameCodes(TextLead, ByteLead) && SameCodes(TextMarker, ByteMarker)
  {
  }

  lemma PrefixAgrees(s: string, b: seq<byte>, t: string, bt: seq<byte>)
    requires SameCodes(s, b) && SameCodes(t, bt)
    ensures HasPrefix(s, t) <==> HasPrefix(b, bt)
  {
    if |t| <= |s| {
      SameAt(s, b, t, bt, 0);
      assert s[..|t|] == s[0..|t|] && b[..|t|] == b[0..|t|];
    }
  }

  lemma InfixToBytes(s: string, b: seq<byte>, t: string, bt: seq<byte>)
    requires SameCodes(s, b) && SameCodes(t, bt) && HasInfix(s, t)
    ensures HasInfix(b, bt)
  {
    var i: nat :| i <= |s| && InfixAt(s, t, i);
    SameAt(s, b, t, bt, i);
    assert InfixAt(b, bt, i);
  }

  lemma InfixFromBytes(s: string, b: seq<byte>, t: string, bt: seq<byte>)
    requires SameCodes(s, b) && SameCodes(t, bt) && HasInfix(b, bt)
    ensures HasInfix(s, t)
  {
    var i: nat :| i <= |b| && InfixAt(b, bt, i);
    SameAt(s, b, t, bt, i);
    assert InfixAt(s, t, i);
  }

  /** Text `t` sits in `s` at `i` exactly when its bytes `bt` sit in the
      bytes `b` of `s` there. */
  lemma SameAt(s: string, b: seq<byte>, t: string, bt: seq<byte>, i: nat)
    requires SameCodes(s, b) && SameCodes(t, bt) && i + |t| <= |s|
    ensures s[i..i + |t|] == t <==> b[i..i + |t|] == bt
  {
    if b[i..i + |t|] == bt {
      forall k | 0 <= k < |t| ensures s[i + k] == t[k] {
        assert b[i..i + |t|][k] == bt[k];
      }
    }
  }

  /** The message of the doctests: the header, then `abcde\r`. */
  const DocHeader: string := ['\U{16}', '\U{FE}', '\U{14}', '\0', '\0', '\0', '\r'] + "MSGGET" + "0006jC0" + ['\U{1D}']

  /** The doctests of `is_honeywell_scanner_msg` and
      `strip_honeywell_header`. */
  lemma HoneywellExamples()
    ensures IsHoneywellMsg(Text(DocHeader + "abcde\r"))
    ensures !IsHoneywellMsg(Text(['\U{1D}'] + "abcde\r"))
    ensures StripHoneywellHeader(Text(DocHeader + "abcde\r")) == Text("abcde\r")
  {
    assert |DocHeader| == 21;
    assert DocHeader[..2] == TextLead;
    assert InfixAt(DocHeader, TextMarker, 7);
    StripTextHeader(DocHeader, "abcde\r");
    assert (['\U{1D}'] + "abcde\r")[0] == '\U{1D}';
  }
}
