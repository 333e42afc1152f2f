/** `process_device_info` (src/py_bluetoothctl_scan.py): one pass over the
    lines of a `bluetoothctl info` report that records the `Device` line and
    fills the property dictionary `props` from `key: value` lines and from
    the hex-dump rows that follow a key. */
module DeviceInfo {
  import opened Wrappers
  import opened PyStr

  // ---------------------------------------------------------------------------
  // re.findall(r"[0-9a-fA-F]+", s)

  /** Length of the run of hexadecimal digits at the front of `s`. */
  function HexRunLength(s: string): (n: nat)
    ensures n <= |s| && forall i :: 0 <= i < n ==> IsHexDigit(s[i])
    ensures n < |s| ==> !IsHexDigit(s[n])
  {
    if s != [] && IsHexDigit(s[0]) then 1 + HexRunLength(s[1..]) else 0
  }

  /** `re.findall(r"[0-9a-fA-F]+", s)`: the maximal runs of ASCII hex digits,
      left to right. */
  function HexRuns(s: string): (r: seq<string>)
    decreases |s|
  {
    if s == [] then []
    else if !IsHexDigit(s[0]) then HexRuns(s[1..])
    else
      var n := HexRunLength(s);
      [s[..n]] + HexRuns(s[n..])
  }

  predicate AllHex(s: string) {
    forall i :: 0 <= i < |s| ==> IsHexDigit(s[i])
  }

  /** The hex digits of `s`, in order. */
  function HexDigits(s: string): (r: string) {
    if s == [] then []
    else if IsHexDigit(s[0]) then [s[0]] + HexDigits(s[1..])
    else HexDigits(s[1..])
  }

  function Concat(parts: seq<string>): string {
    if parts == [] then [] else parts[0] + Concat(parts[1..])
  }

  lemma ConcatAppend(a: seq<string>, b: seq<string>)
    ensures Concat(a + b) == Concat(a) + Concat(b)
  {
    if a != [] {
      assert (a + b)[1..] == a[1..] + b;
    } else {
      assert a + b == b;
    }
  }

  lemma {:induction false} HexDigitsAppend(a: string, b: string)
    ensures HexDigits(a + b) == HexDigits(a) + HexDigits(b)
  {
    if a != [] {
      assert (a + b)[1..] == a[1..] + b;
      HexDigitsAppend(a[1..], b);
    } else {
      assert a + b == b;
    }
  }

  lemma {:induction false} HexDigitsOfHex(s: string)
    requires AllHex(s)
    ensures HexDigits(s) == s
  {
    if s != [] {
      HexDigitsOfHex(s[1..]);
      assert [s[0]] + s[1..] == s;
    }
  }

  /** Every run found is non-empty and all hex digits, and together the runs
      hold exactly the hex digits of the text, in order. */
  lemma {:induction false} HexRunsDigits(s: string)
    ensures forall k :: 0 <= k < |HexRuns(s)| ==> HexRuns(s)[k] != [] && AllHex(HexRuns(s)[k])
    ensures Concat(HexRuns(s)) == HexDigits(s)
    decreases |s|
  {
    if s != [] {
      if !IsHexDigit(s[0]) {
        HexRunsDigits(s[1..]);
      } else {
        var n := HexRunLength(s);
        var rest := HexRuns(s[n..]);
        HexRunsDigits(s[n..]);
        assert HexRuns(s) == [s[..n]] + rest;
        assert HexRuns(s)[1..] == rest;
        HexDigitsOfHex(s[..n]);
        HexDigitsAppend(s[..n], s[n..]);
        assert s[..n] + s[n..] == s;
        forall k | 0 <= k < |HexRuns(s)|
          ensures HexRuns(s)[k] != [] && AllHex(HexRuns(s)[k])
        {
          if k > 0 {
            assert HexRuns(s)[k] == rest[k - 1];
          }
        }
      }
    }
  }

  /** A run of hex digits on its own is found whole. */
  lemma HexRunsWhole(s: string)
    requires s != [] && AllHex(s)
    ensures HexRuns(s) == [s]
  {
    var n := HexRunLength(s);
    assert n == |s|;
    assert s[..n] == s && s[n..] == [];
  }

  lemma {:induction false} HexRunLengthAppend(a: string, c: char, b: string)
    requires AllHex(a) && !IsHexDigit(c)
    ensures HexRunLength(a + [c] + b) == |a|
  {
    if a != [] {
      assert (a + [c] + b)[1..] == a[1..] + [c] + b;
      HexRunLengthAppend(a[1..], c, b);
    }
  }

  /** Runs never cross a character that is not a hex digit: the runs of
      `a + [c] + b` are those of `a` followed by those of `b`. */
  lemma {:induction false} HexRunsSplit(a: string, c: char, b: string)
    requires !IsHexDigit(c)
    ensures HexRuns(a + [c] + b) == HexRuns(a) + HexRuns(b)
    decreases |a|
  {
    var s := a + [c] + b;
    if a == [] {
      assert s[1..] == b;
    } else if !IsHexDigit(a[0]) {
      assert s[1..] == a[1..] + [c] + b;
      HexRunsSplit(a[1..], c, b);
    } else if HexRunLength(a) == |a| {
      HexRunsSplitWhole(a, c, b);
    } else {
      var m := HexRunLength(a);
      var r, a2 := a[..m], a[m..];
      assert a == r + [a2[0]] + a2[1..] && a2 == [a2[0]] + a2[1..];
      HexRunsSplit(a2, c, b);
      HexRunsSplitRun(r, a2[0], a2[1..], c, b);
    }
  }

  lemma Assoc<T>(x: seq<T>, y: seq<T>, z: seq<T>)
    ensures x + (y + z) == x + y + z
  {
  }

  /** A run followed by a character that is no hex digit. */
  lemma HexRunsRun(r: string, d: char, t: string)
    requires r != [] && AllHex(r) && !IsHexDigit(d)
    ensures HexRuns(r + [d] + t) == [r] + HexRuns([d] + t)
  {
    var s := r + [d] + t;
    HexRunLengthAppend(r, d, t);
    assert s[0] == r[0] && s[..|r|] == r && s[|r|..] == [d] + t;
  }

  /** `HexRunsSplit` where `a` is one run. */
  lemma HexRunsSplitWhole(a: string, c: char, b: string)
    requires a != [] && IsHexDigit(a[0]) && HexRunLength(a) == |a| && !IsHexDigit(c)
    ensures HexRuns(a + [c] + b) == HexRuns(a) + HexRuns(b)
  {
    var s := a + [c] + b;
    HexRunLengthAppend(a, c, b);
    assert s[..|a|] == a && s[|a|..] == [c] + b;
    assert ([c] + b)[1..] == b;
    HexRunsWhole(a);
  }

  /** `HexRunsSplit` where `a` is a run `r`, a character `d` that ends it
      and more text `t`, given the split of `[d] + t`. */
  lemma HexRunsSplitRun(r: string, d: char, t: string, c: char, b: string)
    requires r != [] && AllHex(r) && !IsHexDigit(d) && !IsHexDigit(c)
    requires HexRuns([d] + t + [c] + b) == HexRuns([d] + t) + HexRuns(b)
    ensures HexRuns(r + [d] + t + [c] + b) == HexRuns(r + [d] + t) + HexRuns(b)
  {
    var x := t + [c] + b;
    HexRunsRun(r, d, t);
    HexRunsRun(r, d, x);
    Assoc(r + [d], t + [c], b);
    Assoc(r + [d], t, [c]);
    Assoc([d], t + [c], b);
    Assoc([d], t, [c]);
    Assoc([r], HexRuns([d] + t), HexRuns(b));
  }

  // ---------------------------------------------------------------------------
  // The line-by-line pass

  /** A value in `props`: the text after the colon of a `key: value` line,
      or the list of hex strings gathered from the rows after a key. */
  datatype PropValue = Text(text: string) | HexList(runs: seq<string>)

  /** `BTDevice.props`, a class attribute: one dictionary shared by every
      device, so it is passed in and handed back. */
  type Props = map<string, PropValue>

  /** The fields a `Device` line sets on the new `BTDevice`. */
  datatype Header = Header(devType: string, addr: string, comment: string)

  /** The `BTDevice` returned; `info` is the whole report. */
  datatype BtDevice = BtDevice(devType: string, addr: string, comment: string, info: string)

  /** The loop's variables: the `Device` fields set so far, the current key,
      `hex_value_list` and `props`. */
  datatype Pass = Pass(header: Option<Header>, key: string, acc: seq<string>, props: Props)

  /** A stripped line that starts with `Device `. */
  predicate IsDeviceLine(line: string) {
    StartsWith(Strip(line), "Device ")
  }

  /** The characters of a row that the hex search looks at: `line[:47]`. */
  function RowPrefix(line: string): (r: string)
    ensures |r| <= 47 && |r| <= |line| && r == line[..|r|]
    ensures |line| <= 47 ==> r == line
  {
    if |line| > 47 then line[..47] else line
  }

  /** What one line of the report is, as the loop body tells it apart. */
  datatype LineKind =
    | Blank                             // empty once stripped: skipped
    | DeviceOk(header: Header)          // `Device <addr> <comment>`
    | DeviceBad                         // a `Device ` line with too few fields
    | Property(key: string, value: string)  // `key: value`, both stripped
    | Row(hexes: seq<string>)           // anything else: its hex runs

  function Classify(raw: string): (r: LineKind)
    ensures r.DeviceOk? || r.DeviceBad? <==> IsDeviceLine(raw)
    ensures r.Property? ==> Strip(r.key) == r.key
  {
    var line := Strip(raw);
    if line == "" then Blank
    else if StartsWith(line, "Device ") then
      var f := Split(line, " ", 2);
      if |f| != 3 then DeviceBad
      else DeviceOk(Header(f[0], f[1], f[2]))
    else
      var kv := Split(line, ":", 1);
      if |kv| == 2 then
        StripStrip(kv[0]);
        Property(Strip(kv[0]), Strip(kv[1]))
      else Row(HexRuns(RowPrefix(line)))
  }

  /** A `Device` line that does not unpack into three fields: ValueError. */
  predicate BadDeviceLine(line: string) {
    Classify(line).DeviceBad?
  }

  /** One line of the loop; `None` when it raises ValueError. */
  function Step(p: Pass, raw: string): (r: Option<Pass>)
    ensures r.None? <==> BadDeviceLine(raw)
    ensures r.Some? ==> p.props.Keys <= r.value.props.Keys
  {
    match Classify(raw)
    case Blank => Some(p)
    case DeviceBad => None
    case DeviceOk(h) => Some(p.(header := Some(h)))
    case Property(key, value) => Some(Pass(p.header, key, [], p.props[key := Text(value)]))
    case Row(hexes) =>
      var acc := p.acc + hexes;
      Some(p.(acc := acc, props := p.props[p.key := HexList(acc)]))
  }

  /** The outcome of the loop: the final variables, or the `props` already
      written when a `Device` line raised. */
  datatype Fed = Done(pass: Pass) | Failed(props: Props)

  function Feed(p: Pass, lines: seq<string>): (r: Fed)
    decreases |lines|
  {
    if lines == [] then Done(p)
    else
      match Step(p, lines[0])
      case None => Failed(p.props)
      case Some(q) => Feed(q, lines[1..])
  }

  function Start(props: Props): Pass {
    Pass(None, "", [], props)
  }

  /** What `process_device_info(info)` does: the device, or the exception it
      raises, and `props` afterwards. Without a `Device` line `addr` is
      never set and `print(bt_device)` raises AttributeError. */
  function DeviceInfoOf(info: string, props: Props): (Outcome<BtDevice>, Props) {
    match Feed(Start(props), SplitLines(info))
    case Failed(q) => (Raised(ValueError), q)
    case Done(p) =>
      match p.header
      case None => (Raised(AttributeError), p.props)
      case Some(h) => (Returned(BtDevice(h.devType, h.addr, h.comment, info)), p.props)
  }

  /** `process_device_info(info)` with `BTDevice.props` before and after. */
  method ProcessDeviceInfo(info: string, props0: Props) returns (device: Outcome<BtDevice>, props: Props)
    ensures (device, props) == DeviceInfoOf(info, props0)
  {
    var lines := SplitLines(info);
    var header: Option<Header> := None;
    var hexValueList: seq<string> := [];
    var key := "";
    props := props0;
    var i := 0;
    assert lines[0..] == lines;
    while i < |lines|
      invariant i <= |lines|
      invariant Feed(Pass(header, key, hexValueList, props), lines[i..]) == Feed(Start(props0), lines)
    {
      assert lines[i..][1..] == lines[i + 1..];
      var line := Strip(lines[i]);
      i := i + 1;
      if line == "" {
        continue;
      }
      if StartsWith(line, "Device ") {
        var f := Split(line, " ", 2);
        if |f| != 3 {
          return Raised(ValueError), props;
        }
        header := Some(Header(f[0], f[1], f[2]));
        continue;
      }
      var kv := Split(line, ":", 1);
      if |kv| == 2 {
        key := Strip(kv[0]);
        props := props[key := Text(Strip(kv[1]))];
        hexValueList := [];
        continue;
      }
      hexValueList := hexValueList + HexRuns(RowPrefix(line));
      props := props[key := HexList(hexValueList)];
    }
    assert lines[i..] == [];
    if header.None? {
      return Raised(AttributeError), props;
    }
    var h := header.value;
    return Returned(BtDevice(h.devType, h.addr, h.comment, info)), props;
  }

  // ---------------------------------------------------------------------------
  // Properties of the pass

  /** The pass raises ValueError exactly when some line is a `Device` line
      that does not split into three fields. */
  lemma {:induction false} FeedFails(p: Pass, lines: seq<string>)
    ensures Feed(p, lines).Failed? <==> exists j :: 0 <= j < |lines| && BadDeviceLine(lines[j])
    decreases |lines|
  {
    if lines != [] {
      AnyBadCons(lines);
      if Step(p, lines[0]).Some? {
        FeedFails(Step(p, lines[0]).value, lines[1..]);
      }
    }
  }

  lemma AnyBadCons(lines: seq<string>)
    requires lines != []
    ensures (exists j :: 0 <= j < |lines| && BadDeviceLine(lines[j])) <==>
      BadDeviceLine(lines[0]) || exists j :: 0 <= j < |lines[1..]| && BadDeviceLine(lines[1..][j])
  {
    if exists j :: 0 <= j < |lines| && BadDeviceLine(lines[j]) {
      var j :| 0 <= j < |lines| && BadDeviceLine(lines[j]);
      if j > 0 {
        assert BadDeviceLine(lines[1..][j - 1]);
      }
    }
    if exists j :: 0 <= j < |lines[1..]| && BadDeviceLine(lines[1..][j]) {
      var j :| 0 <= j < |lines[1..]| && BadDeviceLine(lines[1..][j]);
      assert BadDeviceLine(lines[j + 1]);
    }
  }

  /** `props` only grows: no key is ever removed, on success or failure. */
  lemma {:induction false} FeedKeepsKeys(p: Pass, lines: seq<string>)
    ensures Feed(p, lines).Done? ==> p.props.Keys <= Feed(p, lines).pass.props.Keys
    ensures Feed(p, lines).Failed? ==> p.props.Keys <= Feed(p, lines).props.Keys
    decreases |lines|
  {
    if lines != [] && Step(p, lines[0]).Some? {
      FeedKeepsKeys(Step(p, lines[0]).value, lines[1..]);
    }
  }

  /** The accumulator is always what `props` holds under the current key,
      once a row has been added, and the current key is stripped. */
  predicate Coherent(p: Pass) {
    Strip(p.key) == p.key && (p.acc != [] ==> p.key in p.props && p.props[p.key] == HexList(p.acc))
  }

  lemma StepCoherent(p: Pass, raw: string)
    requires Coherent(p) && Step(p, raw).Some?
    ensures Coherent(Step(p, raw).value)
  {
  }

  lemma {:induction false} FeedCoherent(p: Pass, lines: seq<string>)
    requires Coherent(p)
    ensures Feed(p, lines).Done? ==> Coherent(Feed(p, lines).pass)
    decreases |lines|
  {
    if lines != [] && Step(p, lines[0]).Some? {
      StepCoherent(p, lines[0]);
      FeedCoherent(Step(p, lines[0]).value, lines[1..]);
    }
  }

  /** The empty key the loop starts with is stripped, so every pass of
      `process_device_info` keeps the accumulator stored under its key. */
  lemma StartCoherent(props: Props)
    ensures Coherent(Start(props))
  {
    StripOfPadded("", "", "");
  }

  /** A `Device` line sets the device word, the address and the comment,
      and touches nothing else. */
  lemma ClassifyDeviceLine(addr: string, comment: string)
    requires ' ' !in addr && comment != [] && Strip(comment) == comment
    ensures Classify("Device " + addr + " " + comment) == DeviceOk(Header("Device", addr, comment))
  {
    var line := "Device " + addr + " " + comment;
    DeviceLineStripped(addr, comment);
    DeviceLineSplits(addr, comment);
    assert StartsWith(line, "Device ") by {
      assert line[..7] == "Device ";
    }
  }

  lemma DeviceLineStripped(addr: string, comment: string)
    requires comment != [] && Strip(comment) == comment
    ensures Strip("Device " + addr + " " + comment) == "Device " + addr + " " + comment
  {
    var line := "Device " + addr + " " + comment;
    assert line[0] == 'D';
    assert line[|line| - 1] == comment[|comment| - 1];
    StripOfPadded("", line, "");
    assert "" + line + "" == line;
  }

  lemma DeviceLineSplits(addr: string, comment: string)
    requires ' ' !in addr
    ensures Split("Device " + addr + " " + comment, " ", 2) == ["Device", addr, comment]
  {
    var line := "Device " + addr + " " + comment;
    assert line == "Device" + [' '] + (addr + [' '] + comment);
    SplitFirst("Device", ' ', addr + " " + comment, 2);
    SplitFirst(addr, ' ', comment, 1);
    assert Split(comment, " ", 0) == [comment];
    assert ["Device"] + ([addr] + [comment]) == ["Device", addr, comment];
  }

  /** A `key: value` line stores the stripped value under the stripped key
      and starts a new, empty accumulator. */
  lemma ClassifyPropertyLine(raw: string, key: string, value: string)
    requires Strip(raw) == key + ":" + value && ':' !in key && !IsDeviceLine(raw)
    ensures Classify(raw) == Property(Strip(key), Strip(value))
  {
    var line := Strip(raw);
    SplitFirst(key, ':', value, 1);
    assert Split(value, ":", 0) == [value];
    assert line != "";
  }

  /** A row without a colon contributes the hex runs of its first 47
      characters. */
  lemma ClassifyRow(raw: string)
    requires Strip(raw) != "" && ':' !in Strip(raw) && !IsDeviceLine(raw)
    ensures Classify(raw) == Row(HexRuns(RowPrefix(Strip(raw))))
  {
    var line := Strip(raw);
    ContainsChar(line, ':');
    assert Split(line, ":", 1) == [line];
  }

  /** A row adds to the accumulator and stores the grown list under the
      current key; every other entry of `props` is left alone. */
  lemma StepRow(p: Pass, raw: string, hexes: seq<string>)
    requires Classify(raw) == Row(hexes)
    ensures Step(p, raw) == Some(Pass(p.header, p.key, p.acc + hexes, p.props[p.key := HexList(p.acc + hexes)]))
  {
  }

  /** A `key: value` line makes `key` current, stores the value under it
      and empties the accumulator (`reset_value()`). */
  lemma StepProperty(p: Pass, raw: string, key: string, value: string)
    requires Classify(raw) == Property(key, value)
    ensures Step(p, raw) == Some(Pass(p.header, key, [], p.props[key := Text(value)]))
  {
  }

  /** `rows[i]` is a row line whose hex runs are `hexes[i]`. */
  predicate RowLines(rows: seq<string>, hexes: seq<seq<string>>) {
    |rows| == |hexes| && forall i :: 0 <= i < |rows| ==> Classify(rows[i]) == Row(hexes[i])
  }

  /** The hex runs of several rows, in order. */
  function AllRuns(hexes: seq<seq<string>>): seq<string> {
    if hexes == [] then [] else hexes[0] + AllRuns(hexes[1..])
  }

  /** A run of row lines extends the accumulator by all their hex runs and
      leaves the grown list under the current key. */
  lemma {:induction false} FeedRows(p: Pass, rows: seq<string>, hexes: seq<seq<string>>)
    requires RowLines(rows, hexes)
    ensures Feed(p, rows) == Done(Pass(p.header, p.key, p.acc + AllRuns(hexes),
      if rows == [] then p.props else p.props[p.key := HexList(p.acc + AllRuns(hexes))]))
    decreases |rows|
  {
    if rows == [] {
      assert p.acc + AllRuns(hexes) == p.acc;
    } else {
      RowLinesTail(rows, hexes);
      var acc := p.acc + hexes[0];
      var q := Pass(p.header, p.key, acc, p.props[p.key := HexList(acc)]);
      StepRow(p, rows[0], hexes[0]);
      FeedRows(q, rows[1..], hexes[1..]);
      FeedRowsStep(p, rows, hexes, q);
    }
  }

  lemma RowLinesTail(rows: seq<string>, hexes: seq<seq<string>>)
    requires rows != [] && RowLines(rows, hexes)
    ensures Classify(rows[0]) == Row(hexes[0]) && RowLines(rows[1..], hexes[1..])
    ensures AllRuns(hexes) == hexes[0] + AllRuns(hexes[1..])
  {
    forall i | 0 <= i < |rows[1..]| ensures Classify(rows[1..][i]) == Row(hexes[1..][i]) {
      assert rows[1..][i] == rows[i + 1] && hexes[1..][i] == hexes[i + 1];
    }
  }

  lemma FeedFirst(p: Pass, lines: seq<string>, q: Pass)
    requires lines != [] && Step(p, lines[0]) == Some(q)
    ensures Feed(p, lines) == Feed(q, lines[1..])
  {
  }

  /** The step of `FeedRows`: the first row, then the others. */
  lemma FeedRowsStep(p: Pass, rows: seq<string>, hexes: seq<seq<string>>, q: Pass)
    requires rows != [] && hexes != [] && q == Pass(p.header, p.key, p.acc + hexes[0], p.props[p.key := HexList(p.acc + hexes[0])])
    requires Step(p, rows[0]) == Some(q)
    requires AllRuns(hexes) == hexes[0] + AllRuns(hexes[1..])
    requires Feed(q, rows[1..]) == Done(Pass(q.header, q.key, q.acc + AllRuns(hexes[1..]),
      if rows[1..] == [] then q.props else q.props[q.key := HexList(q.acc + AllRuns(hexes[1..]))]))
    ensures Feed(p, rows) == Done(Pass(p.header, p.key, p.acc + AllRuns(hexes),
      if rows == [] then p.props else p.props[p.key := HexList(p.acc + AllRuns(hexes))]))
  {
    FeedFirst(p, rows, q);
    Assoc(p.acc, hexes[0], AllRuns(hexes[1..]));
    var all := p.acc + AllRuns(hexes);
    assert q.acc + AllRuns(hexes[1..]) == all;
    UpdateTwice(p.props, p.key, HexList(p.acc + hexes[0]), HexList(all));
  }

  lemma UpdateTwice<K, V>(m: map<K, V>, k: K, a: V, b: V)
    ensures m[k := a][k := b] == m[k := b]
  {
  }

  /** A `key: value` line and the rows after it: the key becomes current,
      the accumulator holds exactly the rows' hex runs, and `props` maps the
      key to the value when no row follows, else to that list of runs. */
  lemma PropertyBlock(p: Pass, keyLine: string, key: string, value: string,
                      rows: seq<string>, hexes: seq<seq<string>>)
    requires Classify(keyLine) == Property(key, value) && RowLines(rows, hexes)
    ensures Feed(p, [keyLine] + rows) == Done(Pass(p.header, key, AllRuns(hexes),
      if rows == [] then p.props[key := Text(value)] else p.props[key := HexList(AllRuns(hexes))]))
  {
    var q := Pass(p.header, key, [], p.props[key := Text(value)]);
    var lines := [keyLine] + rows;
    StepProperty(p, keyLine, key, value);
    assert lines[0] == keyLine && lines[1..] == rows;
    FeedFirst(p, lines, q);
    FeedRows(q, rows, hexes);
    assert [] + AllRuns(hexes) == AllRuns(hexes);
    UpdateTwice(p.props, key, Text(value), HexList(AllRuns(hexes)));
  }

  /** The header of the last `Device` line that splits, or `h`. */
  function LastHeader(h: Option<Header>, lines: seq<string>): Option<Header>
    decreases |lines|
  {
    if lines == [] then h
    else
      match Classify(lines[|lines| - 1])
      case DeviceOk(g) => Some(g)
      case _ => LastHeader(h, lines[..|lines| - 1])
  }

  /** What one line does to the header. */
  function HeaderAfter(h: Option<Header>, line: string): Option<Header> {
    if Classify(line).DeviceOk? then Some(Classify(line).header) else h
  }

  lemma {:induction false} LastHeaderCons(h: Option<Header>, line: string, lines: seq<string>)
    ensures LastHeader(h, [line] + lines) == LastHeader(HeaderAfter(h, line), lines)
    decreases |lines|
  {
    var all := [line] + lines;
    if lines != [] {
      assert all[..|all| - 1] == [line] + lines[..|lines| - 1];
      assert all[|all| - 1] == lines[|lines| - 1];
      LastHeaderCons(h, line, lines[..|lines| - 1]);
    } else {
      assert all[..0] == [];
    }
  }

  lemma StepHeader(p: Pass, line: string)
    requires Step(p, line).Some?
    ensures Step(p, line).value.header == HeaderAfter(p.header, line)
  {
  }

  lemma {:induction false} FeedHeader(p: Pass, lines: seq<string>)
    ensures Feed(p, lines).Done? ==> Feed(p, lines).pass.header == LastHeader(p.header, lines)
    decreases |lines|
  {
    if lines != [] && Step(p, lines[0]).Some? {
      var q := Step(p, lines[0]).value;
      FeedHeader(q, lines[1..]);
      StepHeader(p, lines[0]);
      LastHeaderCons(p.header, lines[0], lines[1..]);
      assert [lines[0]] + lines[1..] == lines;
    }
  }

  lemma {:induction false} NoDeviceLine(lines: seq<string>)
    requires forall j :: 0 <= j < |lines| ==> !IsDeviceLine(lines[j])
    ensures LastHeader(None, lines) == None
    decreases |lines|
  {
    if lines != [] {
      assert !IsDeviceLine(lines[|lines| - 1]);
      NoDeviceLine(lines[..|lines| - 1]);
    }
  }

  /** The call raises ValueError exactly when a `Device` line has too few
      fields. */
  lemma DeviceInfoRaises(info: string, props: Props)
    ensures var lines := SplitLines(info);
      DeviceInfoOf(info, props).0 == Raised(ValueError) <==> exists j :: 0 <= j < |lines| && BadDeviceLine(lines[j])
  {
    var lines := SplitLines(info);
    var fed := Feed(Start(props), lines);
    FeedFails(Start(props), lines);
    if fed.Failed? {
      assert DeviceInfoOf(info, props).0 == Raised(ValueError);
    } else if fed.pass.header.None? {
      assert DeviceInfoOf(info, props).0 == Raised(AttributeError);
    } else {
      assert DeviceInfoOf(info, props).0.Returned?;
    }
  }

  /** When it returns, the device is that of the last `Device` line, and
      `info` is the whole report. */
  lemma DeviceInfoDevice(info: string, props: Props)
    requires DeviceInfoOf(info, props).0.Returned?
    ensures var d := DeviceInfoOf(info, props).0.value;
      LastHeader(None, SplitLines(info)) == Some(Header(d.devType, d.addr, d.comment)) && d.info == info
  {
    FeedHeader(Start(props), SplitLines(info));
  }

  /** Without any `Device` line the call ends in AttributeError. */
  lemma DeviceInfoWithoutDevice(info: string, props: Props)
    requires forall j :: 0 <= j < |SplitLines(info)| ==> !IsDeviceLine(SplitLines(info)[j])
    ensures DeviceInfoOf(info, props).0 == Raised(AttributeError)
  {
    var lines := SplitLines(info);
    FeedFails(Start(props), lines);
    FeedHeader(Start(props), lines);
    NoDeviceLine(lines);
  }

  /** No entry of `props` is ever dropped, whatever the call ends in. */
  lemma DeviceInfoKeepsProps(info: string, props: Props)
    ensures props.Keys <= DeviceInfoOf(info, props).1.Keys
  {
    FeedKeepsKeys(Start(props), SplitLines(info));
  }
}
