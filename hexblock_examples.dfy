/** The doctests of `get_special_data` and `get_manuf_data` in
    src/py_bluetoothctl_scan.py, on the texts `test_info_servicedata` and
    `test_info_manufdata` that the module defines. The blocks of those texts
    are built from their parts: the key line from the tag and the key, the
    hex rows by `HexDumpRow` from their bytes and ASCII column, which spells
    them out character for character, followed by the spaces that trail
    them. The lines in front of the first block are any lines without a tag,
    as the device's name, alias, flags and UUIDs are. */
module HexBlockExamples {
  import opened Wrappers
  import opened PyStr
  import opened HexRow
  import opened HexBlock

  // ---------------------------------------------------------------------------
  // The parts of a block

  /** One row of a dump, as the bytes it shows, its ASCII column and the
      spaces that trail it. */
  datatype Row = Row(bytes: seq<int>, ascii: string, trail: string)

  /** A row as `bluetoothctl` prints them, without a line break, a `K` or a
      `V` in its ASCII column. */
  predicate RowOk(r: Row) {
    1 <= |r.bytes| <= 16 && IsBytes(r.bytes) &&
    r.ascii != [] && !IsSpace(r.ascii[0]) && !IsSpace(r.ascii[|r.ascii| - 1]) && AllSpace(r.trail) &&
    (|r.bytes| < 16 || ParseInt(r.ascii, 16).None?) &&
    NoLineBreak(r.ascii) && NoLineBreak(r.trail) &&
    'K' !in r.ascii && 'V' !in r.ascii && 'K' !in r.trail && 'V' !in r.trail
  }

  /** The row as printed. */
  function RowText(r: Row): string
    requires 1 <= |r.bytes| <= 16 && IsBytes(r.bytes)
  {
    HexDumpRow(r.bytes, r.ascii) + r.trail
  }

  /** A key that `get_key` gives back as it is. */
  predicate KeyOk(key: string) {
    key != [] && !IsSpace(key[0]) && !IsSpace(key[|key| - 1]) && ':' !in key && NoLineBreak(key)
  }

  /** The two tags, the first being `tagName + ":"`; each tag of the source
      qualifies. */
  predicate TagsOk(tagName: string, valueTag: string) {
    tagName != [] && !IsSpace(tagName[0]) && !IsHexDigit(tagName[0]) && tagName[0] != '+' && tagName[0] != '-' &&
    ':' !in tagName && NoLineBreak(tagName) && 'K' in tagName &&
    'K' !in valueTag && 'V' in valueTag && NoLineBreak(valueTag)
  }

  /** A key line: the tag indented by four spaces, a space and the key. */
  function KeyLine(tag: string, key: string): string {
    "    " + tag + " " + key
  }

  function ValueLine(tag: string): string {
    "    " + tag
  }

  lemma KeyLineHasTag(tag: string, key: string)
    ensures Contains(KeyLine(tag, key), tag)
  {
    assert At(tag, tag, 0);
    ContainsAt(tag, tag, 0);
    ContainsInfix("    ", tag, " " + key, tag);
    assert KeyLine(tag, key) == "    " + tag + (" " + key);
  }

  /** `get_key` reads the key back from its line. */
  lemma KeyLineKey(tagName: string, key: string)
    requires ':' !in tagName && KeyOk(key)
    ensures GetKey(KeyLine(tagName + ":", key)) == Returned(key)
  {
    assert KeyLine(tagName + ":", key) == ("    " + tagName) + ":" + (" " + key);
    GetKeyOf("    " + tagName, " " + key);
    StripOfPadded(" ", key, "");
    assert " " + key + "" == " " + key;
  }

  lemma KeyLineNoBreak(tag: string, key: string)
    requires NoLineBreak(tag) && NoLineBreak(key)
    ensures NoLineBreak(KeyLine(tag, key))
  {
    NoLineBreakConcat("    ", tag);
    NoLineBreakConcat("    " + tag, " ");
    NoLineBreakConcat("    " + tag + " ", key);
  }

  /** A key line that starts with a letter other than a hex digit decodes to
      no values: it ends the block before it. */
  lemma KeyLineDecodes(tag: string, key: string)
    requires tag != [] && !IsSpace(tag[0]) && !IsHexDigit(tag[0]) && tag[0] != '+' && tag[0] != '-'
    requires key != [] && !IsSpace(key[|key| - 1])
    ensures RowValues(KeyLine(tag, key)) == Some([])
  {
    var core := tag + " " + key;
    assert core[0] == tag[0] && core[|core| - 1] == key[|key| - 1];
    StripOfPadded("    ", core, "");
    assert "    " + core + "" == KeyLine(tag, key);
    RowValuesNonHexStart(KeyLine(tag, key));
  }

  /** A value line holds its tag, and not the key tag. */
  lemma ValueLineFacts(tag: string, tag1: string)
    requires 'K' !in tag && 'K' in tag1 && NoLineBreak(tag)
    ensures Contains(ValueLine(tag), tag) && !Contains(ValueLine(tag), tag1) && NoLineBreak(ValueLine(tag))
  {
    assert At(tag, tag, 0);
    ContainsAt(tag, tag, 0);
    ContainsInfix("    ", tag, "", tag);
    assert "    " + tag + "" == ValueLine(tag);
    NotContainsByChar(ValueLine(tag), tag1, 'K');
    NoLineBreakConcat("    ", tag);
  }

  /** A row decodes to its bytes and holds no line break and no tag. */
  lemma RowFacts(r: Row, tag1: string, tag2: string)
    requires RowOk(r) && 'K' in tag1 && 'V' in tag2
    ensures NoLineBreak(RowText(r)) && !HasTag(RowText(r), tag1, tag2) && RowValues(RowText(r)) == Some(r.bytes)
  {
    var row := RowText(r);
    HexDumpRowNoLineBreak(r.bytes, r.ascii, r.trail);
    HexDumpRowLacks(r.bytes, r.ascii, r.trail, 'K');
    HexDumpRowLacks(r.bytes, r.ascii, r.trail, 'V');
    NotContainsByChar(row, tag1, 'K');
    NotContainsByChar(row, tag2, 'V');
    DecodeHexDumpRow(r.bytes, r.ascii, r.trail);
  }

  // ---------------------------------------------------------------------------
  // Blocks, for any decoder

  /** The head of a block: a key line giving `key`, then a value line. */
  predicate BlockHead(k: string, v: string, tag1: string, tag2: string, key: string) {
    NoLineBreak(k) && NoLineBreak(v) &&
    Contains(k, tag1) && GetKey(k) == Returned(key) &&
    !Contains(v, tag1) && Contains(v, tag2)
  }

  /** Two rows whose values make up `values`. */
  predicate BlockRows(r1: string, r2: string, tag1: string, tag2: string, decode: Decoder, values: seq<int>) {
    NoLineBreak(r1) && NoLineBreak(r2) &&
    !HasTag(r1, tag1, tag2) && !HasTag(r2, tag1, tag2) &&
    decode(r1).Some? && decode(r2).Some? && values == decode(r1).value + decode(r2).value
  }

  /** Reading a block stores its values under its key and clears the
      pending key. */
  lemma ScanTwoRowBlock(k: string, v: string, r1: string, r2: string, rest: seq<string>, tag1: string, tag2: string,
                        decode: Decoder, key: string, values: seq<int>, pending: string, d: SpecialMap)
    requires BlockHead(k, v, tag1, tag2, key) && BlockRows(r1, r2, tag1, tag2, decode, values)
    requires key != "" && values != [] && BlockEnd(rest, tag1, tag2, decode)
    ensures Scan(k, [v, r1, r2] + rest, tag1, tag2, decode, pending, d) ==
      if rest == [] then Returned(d[key := values]) else Scan(rest[0], rest[1..], tag1, tag2, decode, "", d[key := values])
  {
    var rows := [r1, r2];
    assert rows[1..] == [r2] && rows[1..][1..] == [];
    assert RowsValues(rows, decode) == values by {
      assert RowsValues([r2], decode) == decode(r2).value + [];
    }
    assert [v, r1, r2] + rest == [v] + rows + rest;
    ScanBlock(k, v, rows, rest, tag1, tag2, decode, pending, d, key);
  }

  /** The lines of a text made of a header and blocks; both tags occur in
      it when the first block's lines hold them. */
  lemma SplitText(header: seq<string>, blocks: seq<string>, tag1: string, tag2: string)
    requires forall i :: 0 <= i < |header| ==> NoLineBreak(header[i])
    requires forall i :: 0 <= i < |blocks| ==> NoLineBreak(blocks[i])
    requires |blocks| >= 2 && Contains(blocks[0], tag1) && Contains(blocks[1], tag2)
    ensures SplitLines(LinesText(header + blocks)) == header + blocks
    ensures Contains(LinesText(header + blocks), tag1) && Contains(LinesText(header + blocks), tag2)
  {
    var lines := header + blocks;
    assert forall i :: 0 <= i < |lines| ==> NoLineBreak(lines[i]) by {
      forall i | 0 <= i < |lines| ensures NoLineBreak(lines[i]) {
        if i >= |header| {
          assert lines[i] == blocks[i - |header|];
        }
      }
    }
    SplitLinesOfText(lines);
    assert lines[|header|] == blocks[0] && lines[|header| + 1] == blocks[1];
    ContainsLinesText(lines, |header|, tag1);
    ContainsLinesText(lines, |header| + 1, tag2);
  }

  /** `SplitText` for a block of four lines. */
  lemma SplitTextOne(header: seq<string>, k: string, v: string, t1: string, t2: string, tag1: string, tag2: string)
    requires forall i :: 0 <= i < |header| ==> NoLineBreak(header[i])
    requires NoLineBreak(k) && NoLineBreak(v) && NoLineBreak(t1) && NoLineBreak(t2)
    requires Contains(k, tag1) && Contains(v, tag2)
    ensures SplitLines(LinesText(header + [k, v, t1, t2])) == header + [k, v, t1, t2]
    ensures Contains(LinesText(header + [k, v, t1, t2]), tag1) && Contains(LinesText(header + [k, v, t1, t2]), tag2)
  {
    var b := [k, v, t1, t2];
    forall i | 0 <= i < |b| ensures NoLineBreak(b[i]) {
      if i == 0 { assert b[i] == k; } else if i == 1 { assert b[i] == v; } else if i == 2 { assert b[i] == t1; } else { assert b[i] == t2; }
    }
    SplitText(header, b, tag1, tag2);
  }

  /** `SplitText` for two blocks of four lines. */
  lemma SplitTextTwo(header: seq<string>, k1: string, v1: string, t1: string, t2: string,
                     k2: string, v2: string, t3: string, t4: string, tag1: string, tag2: string)
    requires forall i :: 0 <= i < |header| ==> NoLineBreak(header[i])
    requires NoLineBreak(k1) && NoLineBreak(v1) && NoLineBreak(t1) && NoLineBreak(t2)
    requires NoLineBreak(k2) && NoLineBreak(v2) && NoLineBreak(t3) && NoLineBreak(t4)
    requires Contains(k1, tag1) && Contains(v1, tag2)
    ensures var lines := header + [k1, v1, t1, t2] + [k2, v2, t3, t4];
      SplitLines(LinesText(lines)) == lines && Contains(LinesText(lines), tag1) && Contains(LinesText(lines), tag2)
  {
    var b := [k1, v1, t1, t2, k2, v2, t3, t4];
    forall i | 0 <= i < |b| ensures NoLineBreak(b[i]) {
      if i == 0 { assert b[i] == k1; } else if i == 1 { assert b[i] == v1; }
      else if i == 2 { assert b[i] == t1; } else if i == 3 { assert b[i] == t2; }
      else if i == 4 { assert b[i] == k2; } else if i == 5 { assert b[i] == v2; }
      else if i == 6 { assert b[i] == t3; } else { assert b[i] == t4; }
    }
    SplitText(header, b, tag1, tag2);
    assert header + [k1, v1, t1, t2] + [k2, v2, t3, t4] == header + b;
  }

  /** A header of untagged lines followed by one block. */
  lemma OneBlockScan(header: seq<string>, k: string, v: string, r1: string, r2: string,
                     tag1: string, tag2: string, decode: Decoder, key: string, values: seq<int>)
    requires header != [] && forall i :: 0 <= i < |header| ==> !HasTag(header[i], tag1, tag2)
    requires BlockHead(k, v, tag1, tag2, key) && BlockRows(r1, r2, tag1, tag2, decode, values)
    requires key != "" && values != []
    ensures var lines := header + [k, v, r1, r2];
      Scan(lines[0], lines[1..], tag1, tag2, decode, "", map[]) == Returned(map[key := values])
  {
    var lines := header + [k, v, r1, r2];
    assert lines[0] == header[0] && lines[1..] == header[1..] + [k] + [v, r1, r2];
    ScanSkip(header, k, [v, r1, r2], tag1, tag2, decode, "", map[]);
    ScanTwoRowBlock(k, v, r1, r2, [], tag1, tag2, decode, key, values, "", map[]);
    assert [v, r1, r2] + [] == [v, r1, r2];
  }

  /** A header of untagged lines followed by two blocks; the second key line
      decodes to no values, so it ends the first block. */
  lemma TwoBlockScan(header: seq<string>, k1: string, v1: string, r1: string, r2: string,
                     k2: string, v2: string, r3: string, r4: string, tag1: string, tag2: string, decode: Decoder,
                     key1: string, values1: seq<int>, key2: string, values2: seq<int>)
    requires header != [] && forall i :: 0 <= i < |header| ==> !HasTag(header[i], tag1, tag2)
    requires BlockHead(k1, v1, tag1, tag2, key1) && BlockRows(r1, r2, tag1, tag2, decode, values1)
    requires BlockHead(k2, v2, tag1, tag2, key2) && BlockRows(r3, r4, tag1, tag2, decode, values2)
    requires key1 != "" && values1 != [] && key2 != "" && values2 != [] && decode(k2) == Some([])
    ensures var lines := header + [k1, v1, r1, r2] + [k2, v2, r3, r4];
      Scan(lines[0], lines[1..], tag1, tag2, decode, "", map[]) == Returned(map[key1 := values1, key2 := values2])
  {
    var lines := header + [k1, v1, r1, r2] + [k2, v2, r3, r4];
    var rest := [k2, v2, r3, r4];
    assert lines[0] == header[0] && lines[1..] == header[1..] + [k1] + ([v1, r1, r2] + rest);
    ScanSkip(header, k1, [v1, r1, r2] + rest, tag1, tag2, decode, "", map[]);
    ScanTwoRowBlock(k1, v1, r1, r2, rest, tag1, tag2, decode, key1, values1, "", map[]);
    assert rest[0] == k2 && rest[1..] == [v2, r3, r4] + [];
    ScanTwoRowBlock(k2, v2, r3, r4, [], tag1, tag2, decode, key2, values2, "", map[key1 := values1]);
  }

  // ---------------------------------------------------------------------------
  // Blocks of the doctest texts

  lemma HeadFacts(tagName: string, valueTag: string, key: string)
    requires TagsOk(tagName, valueTag) && KeyOk(key)
    ensures BlockHead(KeyLine(tagName + ":", key), ValueLine(valueTag), tagName + ":", valueTag, key)
    ensures RowValues(KeyLine(tagName + ":", key)) == Some([])
  {
    var tag1 := tagName + ":";
    assert 'K' in tag1;
    NoLineBreakConcat(tagName, ":");
    KeyLineHasTag(tag1, key);
    KeyLineKey(tagName, key);
    KeyLineNoBreak(tag1, key);
    ValueLineFacts(valueTag, tag1);
    assert tag1[0] == tagName[0];
    KeyLineDecodes(tag1, key);
  }

  lemma RowsFacts(tagName: string, valueTag: string, r1: Row, r2: Row)
    requires TagsOk(tagName, valueTag) && RowOk(r1) && RowOk(r2)
    ensures BlockRows(RowText(r1), RowText(r2), tagName + ":", valueTag, RowValues, r1.bytes + r2.bytes)
  {
    assert 'K' in tagName + ":";
    RowFacts(r1, tagName + ":", valueTag);
    RowFacts(r2, tagName + ":", valueTag);
  }

  /** A block of two rows: key line, value line, rows. */
  function BlockLines(tagName: string, valueTag: string, key: string, r1: Row, r2: Row): seq<string>
    requires 1 <= |r1.bytes| <= 16 && IsBytes(r1.bytes) && 1 <= |r2.bytes| <= 16 && IsBytes(r2.bytes)
  {
    [KeyLine(tagName + ":", key), ValueLine(valueTag), RowText(r1), RowText(r2)]
  }

  /** A header of untagged lines and one block, as text. */
  lemma OneBlockLines(header: seq<string>, k: string, v: string, t1: string, t2: string,
                      tag1: string, tag2: string, key: string, values: seq<int>)
    requires header != [] && forall i :: 0 <= i < |header| ==> NoLineBreak(header[i]) && !HasTag(header[i], tag1, tag2)
    requires BlockHead(k, v, tag1, tag2, key) && BlockRows(t1, t2, tag1, tag2, RowValues, values)
    requires key != "" && values != []
    ensures SpecialData(LinesText(header + [k, v, t1, t2]), tag1, tag2) == Returned(map[key := values])
  {
    var lines := header + [k, v, t1, t2];
    var text := LinesText(lines);
    assert Scan(lines[0], lines[1..], tag1, tag2, RowValues, "", map[]) == Returned(map[key := values]) by {
      OneBlockScan(header, k, v, t1, t2, tag1, tag2, RowValues, key, values);
    }
    SplitTextOne(header, k, v, t1, t2, tag1, tag2);
    SpecialDataScan(text, tag1, tag2, lines);
  }

  /** A header of untagged lines and two blocks, as text. */
  lemma TwoBlockLines(header: seq<string>, k1: string, v1: string, t1: string, t2: string,
                      k2: string, v2: string, t3: string, t4: string,
                      tag1: string, tag2: string, key1: string, values1: seq<int>, key2: string, values2: seq<int>)
    requires header != [] && forall i :: 0 <= i < |header| ==> NoLineBreak(header[i]) && !HasTag(header[i], tag1, tag2)
    requires BlockHead(k1, v1, tag1, tag2, key1) && BlockRows(t1, t2, tag1, tag2, RowValues, values1)
    requires BlockHead(k2, v2, tag1, tag2, key2) && BlockRows(t3, t4, tag1, tag2, RowValues, values2)
    requires key1 != "" && values1 != [] && key2 != "" && values2 != [] && RowValues(k2) == Some([])
    ensures SpecialData(LinesText(header + [k1, v1, t1, t2] + [k2, v2, t3, t4]), tag1, tag2) ==
      Returned(map[key1 := values1, key2 := values2])
  {
    var lines := header + [k1, v1, t1, t2] + [k2, v2, t3, t4];
    SplitTextTwo(header, k1, v1, t1, t2, k2, v2, t3, t4, tag1, tag2);
    SpecialDataScan(LinesText(lines), tag1, tag2, lines);
    TwoBlockScan(header, k1, v1, t1, t2, k2, v2, t3, t4, tag1, tag2, RowValues, key1, values1, key2, values2);
  }

  /** A text of header lines and one block. */
  lemma OneBlockText(header: seq<string>, tagName: string, valueTag: string, key: string, r1: Row, r2: Row)
    requires header != [] && forall i :: 0 <= i < |header| ==>
      NoLineBreak(header[i]) && !HasTag(header[i], tagName + ":", valueTag)
    requires TagsOk(tagName, valueTag) && KeyOk(key) && RowOk(r1) && RowOk(r2)
    ensures SpecialData(LinesText(header + BlockLines(tagName, valueTag, key, r1, r2)), tagName + ":", valueTag) ==
      Returned(map[key := r1.bytes + r2.bytes])
  {
    HeadFacts(tagName, valueTag, key);
    RowsFacts(tagName, valueTag, r1, r2);
    OneBlockLines(header, KeyLine(tagName + ":", key), ValueLine(valueTag), RowText(r1), RowText(r2),
                  tagName + ":", valueTag, key, r1.bytes + r2.bytes);
  }

  /** `OneBlockText` for a text, a tag and a result given by name. */
  lemma OneBlockTextOf(header: seq<string>, tagName: string, tag1: string, valueTag: string, key: string,
                       r1: Row, r2: Row, block: seq<string>, text: string, m: SpecialMap)
    requires header != [] && forall i :: 0 <= i < |header| ==> NoLineBreak(header[i]) && !HasTag(header[i], tag1, valueTag)
    requires TagsOk(tagName, valueTag) && KeyOk(key) && RowOk(r1) && RowOk(r2) && tag1 == tagName + ":"
    requires block == BlockLines(tagName, valueTag, key, r1, r2) && text == LinesText(header + block)
    requires m == map[key := r1.bytes + r2.bytes]
    ensures SpecialData(text, tag1, valueTag) == Returned(m)
  {
    OneBlockText(header, tagName, valueTag, key, r1, r2);
  }

  /** A text of header lines and two blocks. */
  lemma TwoBlockText(header: seq<string>, tagName: string, valueTag: string,
                     key1: string, r1: Row, r2: Row, key2: string, r3: Row, r4: Row)
    requires header != [] && forall i :: 0 <= i < |header| ==>
      NoLineBreak(header[i]) && !HasTag(header[i], tagName + ":", valueTag)
    requires TagsOk(tagName, valueTag) && KeyOk(key1) && RowOk(r1) && RowOk(r2) && KeyOk(key2) && RowOk(r3) && RowOk(r4)
    ensures SpecialData(LinesText(header + BlockLines(tagName, valueTag, key1, r1, r2) + BlockLines(tagName, valueTag, key2, r3, r4)),
                        tagName + ":", valueTag) ==
      Returned(map[key1 := r1.bytes + r2.bytes, key2 := r3.bytes + r4.bytes])
  {
    HeadFacts(tagName, valueTag, key1);
    HeadFacts(tagName, valueTag, key2);
    RowsFacts(tagName, valueTag, r1, r2);
    RowsFacts(tagName, valueTag, r3, r4);
    TwoBlockLines(header, KeyLine(tagName + ":", key1), ValueLine(valueTag), RowText(r1), RowText(r2),
                  KeyLine(tagName + ":", key2), ValueLine(valueTag), RowText(r3), RowText(r4),
                  tagName + ":", valueTag, key1, r1.bytes + r2.bytes, key2, r3.bytes + r4.bytes);
  }

  // ---------------------------------------------------------------------------
  // get_special_data("abc", ...)

  /** Without the tags the text is not looked at: `{}`. */
  lemma NoTagExample()
    ensures SpecialData("abc", ServiceKeyTag, ServiceValueTag) == Returned(map[])
  {
    NotContainsByChar("abc", ServiceKeyTag, 'K');
  }

  // ---------------------------------------------------------------------------
  // test_info_servicedata

  /** The tail of a 128-bit UUID on the Bluetooth base UUID. */
  const BaseUuidTail := "-0000-1000-" + "8000-00805f9b34fb"

  /** A UUID on the base UUID, from its first eight hex digits. */
  function BaseUuid(prefix: string): string {
    prefix + BaseUuidTail
  }

  lemma BaseUuidTailFacts()
    ensures ':' !in BaseUuidTail && NoLineBreak(BaseUuidTail) && BaseUuidTail[|BaseUuidTail| - 1] == 'b'
  {
  }

  lemma BaseUuidOk(prefix: string)
    requires KeyOk(prefix)
    ensures KeyOk(BaseUuid(prefix))
  {
    BaseUuidTailFacts();
    NoLineBreakConcat(prefix, BaseUuidTail);
  }

  /** The facts `RowOk` needs of an ASCII column. */
  lemma AsciiOk(ascii: string)
    requires forall i :: 0 <= i < |ascii| ==> ' ' <= ascii[i] <= '~' && ascii[i] != 'K' && ascii[i] != 'V'
    ensures NoLineBreak(ascii) && 'K' !in ascii && 'V' !in ascii
  {
  }

  const ServiceKey := BaseUuid("0000fd6f")
  const ServiceRow1 := Row([0xd7, 0xe5, 0xea, 0x9f, 0x94, 0x47, 0x4c, 0x30, 0xaa, 0x0c, 0x44, 0xa9, 0x55, 0x26, 0x0d, 0xd9],
                           ".....GL0..D.U&..", "")
  const ServiceRow2 := Row([0x4f, 0xb7, 0x8c, 0xfd], "O...", "")

  lemma ServiceTagsOk()
    ensures TagsOk("ServiceData Key", ServiceValueTag) && ServiceKeyTag == "ServiceData Key" + ":"
  {
    ServiceTagNameOk();
    ServiceValueTagOk();
  }

  lemma ServiceTagNameOk()
    ensures ':' !in "ServiceData Key" && NoLineBreak("ServiceData Key") && 'K' in "ServiceData Key"
  {
    assert "ServiceData Key"[12] == 'K';
  }

  lemma ServiceValueTagOk()
    ensures 'K' !in ServiceValueTag && 'V' in ServiceValueTag && NoLineBreak(ServiceValueTag)
  {
    assert ServiceValueTag[12] == 'V';
  }

  lemma ServiceKeyOk()
    ensures KeyOk(ServiceKey)
  {
    assert KeyOk("0000fd6f");
    BaseUuidOk("0000fd6f");
  }

  lemma ServiceRow1Ok()
    ensures RowOk(ServiceRow1)
  {
    var r := ServiceRow1;
    assert IsBytes(r.bytes);
    AsciiOk(r.ascii);
    ParseIntNonDigitStart(r.ascii);
  }

  lemma ServiceRow2Ok()
    ensures RowOk(ServiceRow2)
  {
  }

  lemma ServiceBytes()
    ensures ServiceRow1.bytes + ServiceRow2.bytes ==
      [215, 229, 234, 159, 148, 71, 76, 48, 170, 12, 68, 169, 85, 38, 13, 217, 79, 183, 140, 253]
  {
  }

  /** `test_info_servicedata`: its tags, key and rows meet what
      `OneBlockText` asks, so after any header its block yields the one key
      with the twenty bytes of its two rows. */
  lemma ServiceDataInputs()
    ensures TagsOk("ServiceData Key", ServiceValueTag) && ServiceKeyTag == "ServiceData Key" + ":"
    ensures KeyOk(ServiceKey) && RowOk(ServiceRow1) && RowOk(ServiceRow2)
    ensures ServiceRow1.bytes + ServiceRow2.bytes ==
      [215, 229, 234, 159, 148, 71, 76, 48, 170, 12, 68, 169, 85, 38, 13, 217, 79, 183, 140, 253]
  {
    ServiceTagsOk();
    ServiceKeyOk();
    ServiceRow1Ok();
    ServiceRow2Ok();
    ServiceBytes();
  }

  // ---------------------------------------------------------------------------
  // test_info_manufdata

  /** The first row of the first ManufacturerData block. */
  const ManufRow1 := Row([0x42, 0x04, 0x01, 0x20, 0x7e, 0x19, 0x0f, 0x00, 0x02, 0x01, 0x31, 0x00, 0x00, 0x00, 0x00, 0x00],
                         "B.. ~.....1.....", "")

  lemma ManufRow1Ok()
    ensures RowOk(ManufRow1)
  {
    var r := ManufRow1;
    assert IsBytes(r.bytes);
    AsciiOk(r.ascii);
    ParseIntBadSecond(r.ascii);
  }

  /** The other rows and the two keys of `test_info_manufdata`. The second
      row of each block holds eight bytes; the first of them is followed by
      eight spaces. */
  const ManufRow2 := Row([0x00, 0x00, 0x00, 0x00, 0x00, 0x00, 0x00, 0x00], "........", "        ")
  const ManufKey2 := "0xff19"
  const ManufRow3 := Row([0x00, 0x75, 0x00, 0x09, 0x01, 0x00, 0x00, 0x00, 0x06, 0x01, 0x00, 0x00, 0x00, 0x00, 0x00, 0x00],
                         ".u..............", "")
  const ManufRow4 := Row([0x00, 0x00, 0x00, 0x00, 0x00, 0x00, 0x00, 0x00], "........", "")
  const ManufKey1 := "0x0075"

  lemma ManufTagsOk()
    ensures TagsOk("ManufacturerData Key", ManufValueTag) && ManufKeyTag == "ManufacturerData Key" + ":"
  {
    ManufTagNameOk();
    ManufValueTagOk();
  }

  lemma ManufTagNameOk()
    ensures ':' !in "ManufacturerData Key" && NoLineBreak("ManufacturerData Key") && 'K' in "ManufacturerData Key"
  {
    assert "ManufacturerData Key"[17] == 'K';
  }

  lemma ManufValueTagOk()
    ensures 'K' !in ManufValueTag && 'V' in ManufValueTag && NoLineBreak(ManufValueTag)
  {
    assert ManufValueTag[17] == 'V';
  }

  lemma ManufKeysOk()
    ensures KeyOk(ManufKey1) && KeyOk(ManufKey2)
  {
  }

  lemma ManufRow2Ok()
    ensures RowOk(ManufRow2)
  {
  }

  lemma ManufRow3Ok()
    ensures RowOk(ManufRow3)
  {
    var r := ManufRow3;
    assert IsBytes(r.bytes);
    AsciiOk(r.ascii);
    ParseIntNonDigitStart(r.ascii);
  }

  lemma ManufRow4Ok()
    ensures RowOk(ManufRow4)
  {
  }

  lemma ManufBytes()
    ensures ManufRow1.bytes + ManufRow2.bytes ==
      [66, 4, 1, 32, 126, 25, 15, 0, 2, 1, 49, 0, 0, 0, 0, 0, 0, 0, 0, 0, 0, 0, 0, 0]
    ensures ManufRow3.bytes + ManufRow4.bytes ==
      [0, 117, 0, 9, 1, 0, 0, 0, 6, 1, 0, 0, 0, 0, 0, 0, 0, 0, 0, 0, 0, 0, 0, 0]
  {
  }

  /** `test_info_manufdata`: its tags, two keys and four rows meet what
      `TwoBlockText` asks, so after any header its two blocks yield
      `0x0075` and `0xff19`, each with the 24 bytes of its rows. */
  lemma ManufDataInputs()
    ensures TagsOk("ManufacturerData Key", ManufValueTag) && ManufKeyTag == "ManufacturerData Key" + ":"
    ensures KeyOk(ManufKey1) && KeyOk(ManufKey2)
    ensures RowOk(ManufRow1) && RowOk(ManufRow2) && RowOk(ManufRow3) && RowOk(ManufRow4)
    ensures ManufRow1.bytes + ManufRow2.bytes ==
      [66, 4, 1, 32, 126, 25, 15, 0, 2, 1, 49, 0, 0, 0, 0, 0, 0, 0, 0, 0, 0, 0, 0, 0]
    ensures ManufRow3.bytes + ManufRow4.bytes ==
      [0, 117, 0, 9, 1, 0, 0, 0, 6, 1, 0, 0, 0, 0, 0, 0, 0, 0, 0, 0, 0, 0, 0, 0]
  {
    ManufTagsOk();
    ManufKeysOk();
    ManufRow1Ok();
    ManufRow2Ok();
    ManufRow3Ok();
    ManufRow4Ok();
    ManufBytes();
  }

  /** Its ASCII column starts with `B`, a hex digit, but the `.` after it
      stops `int()`, so the row decodes to its sixteen bytes alone. */
  lemma ManufRow1Decodes()
    ensures RowValues(RowText(ManufRow1)) == Some([66, 4, 1, 32, 126, 25, 15, 0, 2, 1, 49, 0, 0, 0, 0, 0])
  {
    ManufRow1Ok();
    DecodeHexDumpRow(ManufRow1.bytes, ManufRow1.ascii, ManufRow1.trail);
  }
}
