/** The output of `bluetoothctl devices`, one `Device <addr> <name>` line per
    device: `get_mac_addresses`, which lists the addresses, and
    `process_devices`, which keeps the module-level dictionary `bt_devices`
    of the devices seen so far (src/py_bluetoothctl_scan.py). */
module DeviceList {
  import opened Wrappers
  import opened PyStr

  // ---------------------------------------------------------------------------
  // One line

  /** The three fields of `line.split(" ", maxsplit=2)`, or `None` where
      unpacking them into `dev, addr, value` raises ValueError. */
  function Fields(line: string): (r: Option<seq<string>>)
    ensures r.Some? ==> |r.value| == 3 && ' ' !in r.value[0] && ' ' !in r.value[1]
    ensures r.Some? ==> line == r.value[0] + " " + r.value[1] + " " + r.value[2]
  {
    var parts := Split(line, " ", 2);
    if |parts| == 3 then
      SplitThree(line, parts);
      Some(parts)
    else None
  }

  lemma SplitThree(line: string, parts: seq<string>)
    requires parts == Split(line, " ", 2) && |parts| == 3
    ensures ' ' !in parts[0] && ' ' !in parts[1]
    ensures line == parts[0] + " " + parts[1] + " " + parts[2]
  {
    SplitPartsFree(line, " ", 2);
    ContainsChar(parts[0], ' ');
    ContainsChar(parts[1], ' ');
    SplitJoin(line, " ", 2);
    JoinThree(parts, " ");
  }

  lemma JoinThree(parts: seq<string>, sep: string)
    requires |parts| == 3
    ensures Join(parts, sep) == parts[0] + sep + parts[1] + sep + parts[2]
  {
    assert parts[1..][1..] == [parts[2]];
    assert Join(parts[1..], sep) == parts[1] + sep + parts[2];
  }

  /** A line made of a device word, an address and a name splits back into
      them. */
  lemma FieldsOf(dev: string, addr: string, name: string)
    requires ' ' !in dev && ' ' !in addr
    ensures Fields(dev + " " + addr + " " + name) == Some([dev, addr, name])
  {
    SplitFirst(dev, ' ', addr + " " + name, 2);
    SplitFirst(addr, ' ', name, 1);
    assert Split(name, " ", 0) == [name];
    assert dev + " " + addr + " " + name == dev + [' '] + (addr + [' '] + name);
    assert Split(dev + " " + addr + " " + name, " ", 2) == [dev] + ([addr] + [name]) == [dev, addr, name];
  }

  // ---------------------------------------------------------------------------
  // get_mac_addresses

  /** What `get_mac_addresses` returns for the lines of its input: the
      address of each non-empty line, or the ValueError of the first line
      that does not split into three fields. */
  function MacAddresses(lines: seq<string>): (r: Outcome<seq<string>>)
    ensures !r.Diverges?
    ensures r.Raised? ==> r.error == ValueError
  {
    if lines == [] then Returned([])
    else if lines[0] == "" then MacAddresses(lines[1..])
    else if Fields(lines[0]).None? then Raised(ValueError)
    else
      match MacAddresses(lines[1..])
      case Returned(rest) => Returned([Fields(lines[0]).value[1]] + rest)
      case Raised(e) => Raised(e)
      case Diverges => Diverges
  }

  /** The non-empty lines, in order. */
  function NonEmpty(lines: seq<string>): (r: seq<string>)
    ensures |r| <= |lines| && forall k :: 0 <= k < |r| ==> r[k] != "" && r[k] in lines
  {
    if lines == [] then []
    else if lines[0] == "" then NonEmpty(lines[1..])
    else [lines[0]] + NonEmpty(lines[1..])
  }

  /** `get_mac_addresses` succeeds when every non-empty line has three
      fields; `MacAddressesValues` gives the converse. */
  lemma {:induction false} MacAddressesSucceeds(lines: seq<string>)
    requires forall k :: 0 <= k < |NonEmpty(lines)| ==> Fields(NonEmpty(lines)[k]).Some?
    ensures MacAddresses(lines).Returned?
  {
    if lines != [] {
      var ne, ne' := NonEmpty(lines), NonEmpty(lines[1..]);
      if lines[0] != "" {
        assert ne == [lines[0]] + ne';
        assert Fields(ne[0]).Some?;
        forall k | 0 <= k < |ne'| ensures Fields(ne'[k]).Some? {
          assert ne'[k] == ne[k + 1];
        }
      }
      MacAddressesSucceeds(lines[1..]);
    }
  }

  /** `r` lists the middle field of each line of `ne`, in order. */
  predicate Middles(ne: seq<string>, r: seq<string>) {
    |r| == |ne| && forall k :: 0 <= k < |ne| ==> Fields(ne[k]).Some? && r[k] == Fields(ne[k]).value[1]
  }

  /** On success it lists the middle field of each non-empty line, in input
      order, duplicates kept. */
  lemma {:induction false} MacAddressesValues(lines: seq<string>)
    requires MacAddresses(lines).Returned?
    ensures Middles(NonEmpty(lines), MacAddresses(lines).value)
  {
    if lines != [] {
      MacAddressesValues(lines[1..]);
      if lines[0] != "" {
        assert NonEmpty(lines) == [lines[0]] + NonEmpty(lines[1..]);
        assert MacAddresses(lines).value == [Fields(lines[0]).value[1]] + MacAddresses(lines[1..]).value;
        MiddlesCons(lines[0], NonEmpty(lines[1..]), MacAddresses(lines[1..]).value);
      }
    }
  }

  lemma MiddlesCons(line: string, ne: seq<string>, r: seq<string>)
    requires Fields(line).Some? && Middles(ne, r)
    ensures Middles([line] + ne, [Fields(line).value[1]] + r)
  {
    var ne', r' := [line] + ne, [Fields(line).value[1]] + r;
    forall k | 1 <= k < |ne'| ensures Fields(ne'[k]).Some? && r'[k] == Fields(ne'[k]).value[1] {
      assert ne'[k] == ne[k - 1] && r'[k] == r[k - 1];
    }
  }

  /** `Then(acc, o)`: the addresses `acc` followed by those of `o`. */
  function Then(acc: seq<string>, o: Outcome<seq<string>>): Outcome<seq<string>> {
    match o
    case Returned(v) => Returned(acc + v)
    case Raised(e) => Raised(e)
    case Diverges => Diverges
  }

  lemma ThenEmpty(o: Outcome<seq<string>>)
    ensures Then([], o) == o
  {
    if o.Returned? {
      assert [] + o.value == o.value;
    }
  }

  lemma ThenStep(acc: seq<string>, a: string, o: Outcome<seq<string>>)
    ensures Then(acc + [a], o) == Then(acc, Then([a], o))
  {
    if o.Returned? {
      assert acc + [a] + o.value == acc + ([a] + o.value);
    }
  }

  /** `get_mac_addresses(data)`: the loop over `data.splitlines()`. */
  method GetMacAddresses(data: string) returns (r: Outcome<seq<string>>)
    ensures r == MacAddresses(SplitLines(data))
  {
    var lines := SplitLines(data);
    var addrList: seq<string> := [];
    var i := 0;
    assert lines[0..] == lines;
    ThenEmpty(MacAddresses(lines));
    while i < |lines|
      invariant i <= |lines|
      invariant Then(addrList, MacAddresses(lines[i..])) == MacAddresses(lines)
    {
      var line := lines[i];
      assert lines[i..][1..] == lines[i + 1..];
      if line == "" {
        i := i + 1;
        continue;
      }
      var fields := Fields(line);
      if fields.None? {
        return Raised(ValueError);
      }
      var addr := fields.value[1];
      ThenStep(addrList, addr, MacAddresses(lines[i + 1..]));
      addrList := addrList + [addr];
      i := i + 1;
    }
    assert lines[i..] == [];
    assert addrList + [] == addrList;
    return Returned(addrList);
  }

  /** A `bluetoothctl devices` line. */
  function DeviceLine(addr: string, name: string): string {
    "Device " + addr + " " + name
  }

  /** The doctest of `get_mac_addresses` on `testdata`: three device lines,
      each followed by an empty line but the last. */
  lemma MacAddressesOfTestData(a1: string, n1: string, a2: string, n2: string, a3: string, n3: string)
    requires ' ' !in a1 && ' ' !in a2 && ' ' !in a3
    ensures MacAddresses([DeviceLine(a1, n1), "", DeviceLine(a2, n2), "", DeviceLine(a3, n3)]) == Returned([a1, a2, a3])
  {
    var l3 := [DeviceLine(a3, n3)];
    var l2 := [DeviceLine(a2, n2)] + ([""] + l3);
    var l1 := [DeviceLine(a1, n1)] + ([""] + l2);
    assert MacAddresses([]) == Returned([]);
    DeviceLineCons(a3, n3, [], []);
    assert [DeviceLine(a3, n3)] + [] == l3;
    BlankCons(l3);
    DeviceLineCons(a2, n2, [""] + l3, [a3] + []);
    BlankCons(l2);
    DeviceLineCons(a1, n1, [""] + l2, [a2] + ([a3] + []));
    assert [a1] + ([a2] + ([a3] + [])) == [a1, a2, a3];
    assert l1 == [DeviceLine(a1, n1), "", DeviceLine(a2, n2), "", DeviceLine(a3, n3)];
  }

  /** A device line in front adds its address in front. */
  lemma DeviceLineCons(addr: string, name: string, rest: seq<string>, v: seq<string>)
    requires ' ' !in addr && MacAddresses(rest) == Returned(v)
    ensures MacAddresses([DeviceLine(addr, name)] + rest) == Returned([addr] + v)
  {
    var lines := [DeviceLine(addr, name)] + rest;
    FieldsOf("Device", addr, name);
    assert DeviceLine(addr, name) == "Device" + " " + addr + " " + name;
    assert lines[0] != "" && lines[1..] == rest;
  }

  /** An empty line in front changes nothing. */
  lemma BlankCons(rest: seq<string>)
    ensures MacAddresses([""] + rest) == MacAddresses(rest)
  {
    assert ([""] + rest)[1..] == rest;
  }

  /** The test's report as one text: its lines joined, each ending in `\n`,
      taken apart by `splitlines()` before the addresses are read. */
  lemma MacAddressesOfTestText(a1: string, n1: string, a2: string, n2: string, a3: string, n3: string)
    requires ' ' !in a1 && ' ' !in a2 && ' ' !in a3
    requires NoLineBreak(a1) && NoLineBreak(a2) && NoLineBreak(a3)
    requires NoLineBreak(n1) && NoLineBreak(n2) && NoLineBreak(n3)
    ensures MacAddresses(SplitLines(LinesText([DeviceLine(a1, n1), "", DeviceLine(a2, n2), "", DeviceLine(a3, n3)]))) ==
      Returned([a1, a2, a3])
  {
    var lines := [DeviceLine(a1, n1), "", DeviceLine(a2, n2), "", DeviceLine(a3, n3)];
    DeviceLineNoBreak(a1, n1);
    DeviceLineNoBreak(a2, n2);
    DeviceLineNoBreak(a3, n3);
    assert NoLineBreak("");
    SplitLinesOfText(lines);
    MacAddressesOfTestData(a1, n1, a2, n2, a3, n3);
  }

  lemma DeviceLineNoBreak(addr: string, name: string)
    requires NoLineBreak(addr) && NoLineBreak(name)
    ensures NoLineBreak(DeviceLine(addr, name))
  {
    assert NoLineBreak("Device ") && NoLineBreak(" ");
    NoLineBreakConcat("Device ", addr);
    NoLineBreakConcat("Device " + addr, " ");
    NoLineBreakConcat("Device " + addr + " ", name);
  }

  /** Printable ASCII text holds no line break. */
  lemma PrintableNoBreak(s: string)
    requires forall i :: 0 <= i < |s| ==> ' ' <= s[i] <= '~'
    ensures NoLineBreak(s)
  {
  }

  lemma TestDataNoBreaks()
    ensures NoLineBreak("47:B6:7A:81:C4:BC") && NoLineBreak("47-B6-7A-81-C4-BC")
    ensures NoLineBreak("D8:DD:6B:81:74:8B") && NoLineBreak("Hue Lamp")
    ensures NoLineBreak("24:FC:E5:8F:AB:89") && NoLineBreak("[TV] Samsung Q70 Series (49)")
  {
    PrintableNoBreak("47:B6:7A:81:C4:BC");
    PrintableNoBreak("47-B6-7A-81-C4-BC");
    PrintableNoBreak("D8:DD:6B:81:74:8B");
    PrintableNoBreak("Hue Lamp");
    PrintableNoBreak("24:FC:E5:8F:AB:89");
    PrintableNoBreak("[TV] Samsung Q70 Series (49)");
  }

  lemma TestDataAddresses()
    ensures MacAddresses(SplitLines(LinesText([DeviceLine("47:B6:7A:81:C4:BC", "47-B6-7A-81-C4-BC"), "",
                                               DeviceLine("D8:DD:6B:81:74:8B", "Hue Lamp"), "",
                                               DeviceLine("24:FC:E5:8F:AB:89", "[TV] Samsung Q70 Series (49)")]))) ==
      Returned(["47:B6:7A:81:C4:BC", "D8:DD:6B:81:74:8B", "24:FC:E5:8F:AB:89"])
  {
    TestDataNoBreaks();
    MacAddressesOfTestText("47:B6:7A:81:C4:BC", "47-B6-7A-81-C4-BC", "D8:DD:6B:81:74:8B", "Hue Lamp",
                           "24:FC:E5:8F:AB:89", "[TV] Samsung Q70 Series (49)");
  }

  // ---------------------------------------------------------------------------
  // process_devices and bt_devices

  /** A `BTDevice` as `process_devices` fills it in. */
  datatype Device = Device(dev: string, addr: string, name: string, timestamp: string)

  type Devices = map<string, Device>

  /** What `bt_devices` holds between calls: every device under its own
      non-empty address. */
  predicate GoodDevices(devices: Devices) {
    forall a :: a in devices ==> a != "" && devices[a].addr == a
  }

  /** One line of `process_devices`, with the timestamp taken for it. A line
      that does not split is reported and skipped; an empty address is
      not stored. */
  function Upsert(devices: Devices, line: string, stamp: string): (r: Devices)
  {
    if line == "" then devices
    else
      match Fields(line)
      case None => devices
      case Some(f) =>
        if f[1] == "" then devices
        else if f[1] !in devices then devices[f[1] := Device(f[0], f[1], f[2], stamp)]
        else devices[f[1] := devices[f[1]].(timestamp := stamp)]
  }

  /** All lines, each with its timestamp. */
  function Upserts(devices: Devices, lines: seq<string>, stamps: seq<string>): (r: Devices)
    requires |stamps| == |lines|
    decreases |lines|
  {
    if lines == [] then devices
    else Upserts(Upsert(devices, lines[0], stamps[0]), lines[1..], stamps[1..])
  }

  /** A new address is inserted with the line's fields and timestamp. */
  lemma UpsertNew(devices: Devices, dev: string, addr: string, name: string, stamp: string)
    requires ' ' !in dev && ' ' !in addr && addr != "" && addr !in devices
    ensures Upsert(devices, dev + " " + addr + " " + name, stamp) == devices[addr := Device(dev, addr, name, stamp)]
  {
    FieldsOf(dev, addr, name);
  }

  /** A known address only gets the new timestamp: the first name seen and
      the device word are kept. */
  lemma UpsertKnown(devices: Devices, dev: string, addr: string, name: string, stamp: string)
    requires ' ' !in dev && ' ' !in addr && addr != "" && addr in devices
    ensures var r := Upsert(devices, dev + " " + addr + " " + name, stamp);
      r.Keys == devices.Keys && r[addr] == devices[addr].(timestamp := stamp)
  {
    FieldsOf(dev, addr, name);
    var r := Upsert(devices, dev + " " + addr + " " + name, stamp);
    assert r == devices[addr := devices[addr].(timestamp := stamp)];
  }

  /** A line changes nothing but the entry of its own address, and only
      adds that address. */
  lemma UpsertFrame(devices: Devices, line: string, stamp: string)
    ensures var r := Upsert(devices, line, stamp);
      devices.Keys <= r.Keys &&
      (forall a :: a in r && a !in devices ==> Fields(line).Some? && a == Fields(line).value[1]) &&
      (forall a :: a in devices && (Fields(line).None? || a != Fields(line).value[1]) ==> r[a] == devices[a])
  {
  }

  /** Empty lines, lines that do not split and lines with an empty address
      change nothing. */
  lemma UpsertSkips(devices: Devices, line: string, stamp: string)
    requires line == "" || Fields(line).None? || Fields(line).value[1] == ""
    ensures Upsert(devices, line, stamp) == devices
  {
  }

  lemma UpsertGood(devices: Devices, line: string, stamp: string)
    requires GoodDevices(devices)
    ensures GoodDevices(Upsert(devices, line, stamp))
  {
  }

  /** Once seen, a device keeps its address, device word and name for good;
      only its timestamp moves. */
  lemma {:induction false} UpsertsKeepFirst(devices: Devices, lines: seq<string>, stamps: seq<string>, a: string)
    requires |stamps| == |lines| && a in devices
    ensures var r := Upserts(devices, lines, stamps);
      a in r && r[a].dev == devices[a].dev && r[a].addr == devices[a].addr && r[a].name == devices[a].name
    decreases |lines|
  {
    if lines != [] {
      var d := Upsert(devices, lines[0], stamps[0]);
      UpsertFrame(devices, lines[0], stamps[0]);
      UpsertsKeepFirst(d, lines[1..], stamps[1..], a);
    }
  }

  lemma {:induction false} UpsertsGood(devices: Devices, lines: seq<string>, stamps: seq<string>)
    requires |stamps| == |lines| && GoodDevices(devices)
    ensures GoodDevices(Upserts(devices, lines, stamps))
    decreases |lines|
  {
    if lines != [] {
      UpsertGood(devices, lines[0], stamps[0]);
      UpsertsGood(Upsert(devices, lines[0], stamps[0]), lines[1..], stamps[1..]);
    }
  }

  /** The module-level `bt_devices`. */
  class Registry {
    var devices: Devices

    ghost predicate Valid()
      reads this
    {
      GoodDevices(devices)
    }

    constructor ()
      ensures Valid() && devices == map[]
    {
      devices := map[];
    }

    /** `process_devices(data)`. `get_timestamp()` is read once per line of
        `data.splitlines()`, empty lines included: `stamps` are those
        readings. Returns `bt_devices` itself. */
    method ProcessDevices(data: string, stamps: seq<string>) returns (r: Devices)
      requires Valid() && |stamps| == |SplitLines(data)|
      modifies this
      ensures Valid() && devices == Upserts(old(devices), SplitLines(data), stamps) && r == devices
    {
      var lines := SplitLines(data);
      var i := 0;
      while i < |lines|
        invariant i <= |lines| && Valid()
        invariant Upserts(devices, lines[i..], stamps[i..]) == Upserts(old(devices), lines, stamps)
      {
        assert lines[i..][1..] == lines[i + 1..] && stamps[i..][1..] == stamps[i + 1..];
        var line := lines[i];
        var datetimestr := stamps[i];
        i := i + 1;
        if line == "" {
          continue;
        }
        var fields := Fields(line);
        if fields.None? {
          continue;
        }
        var dev, addr, value := fields.value[0], fields.value[1], fields.value[2];
        if addr == "" {
          continue;
        }
        if addr !in devices {
          devices := devices[addr := Device(dev, addr, value, datetimestr)];
        } else {
          devices := devices[addr := devices[addr].(timestamp := datetimestr)];
        }
      }
      r := devices;
    }
  }
}
