# pi_bluetooth text parsers in Dafny

pi_bluetooth drives the Bluetooth command-line tools of a Raspberry Pi
(`bluetoothctl`, `hcitool lescan`, `sdptool browse`) and reads their printed
output. This project models the layer that turns that text into Python
values, and proves what those values are:

- `get_mac_addresses` and `process_devices` read the `Device <addr> <name>`
  lines of `bluetoothctl devices`. The first lists the addresses. The second
  updates the module-level registry `bt_devices` (module `DeviceList`, file
  `devices.dfy`).
- `process_device_info` reads one `bluetoothctl info` report. It records the
  `Device` line and fills the property dictionary from `key: value` lines
  and from the hex-dump rows that follow a key (module `DeviceInfo`).
- `get_special_data`, `get_service_data` and `get_manuf_data` read the
  `ServiceData` / `ManufacturerData` blocks of such a report into a map from
  key to byte values. This covers the nested helpers `get_key`, `get_value`
  and `get_valuelist_from_one_line` (modules `HexRow` and `HexBlock`). The
  doctests on `test_info_servicedata` and `test_info_manufdata` are in
  `HexBlockExamples`.
- `IteratorWithPushback`, the one-slot pushback iterator, is a class. Its
  test `test_iter1` is a method (module `Pushback`).
- `process_le_scan` sorts `hcitool lescan` lines into resolved and unknown
  addresses (module `LeScan`).
- `parse_inq` turns `sdptool browse` stanzas into service records (module
  `SdpRecords`).
- `is_bt_address`, `is_honeywell_scanner_msg` and `strip_honeywell_header`
  are in module `BtPredicates`.

Python's string and integer built-ins are written out in `PyStr`:

- `str.strip`, `str.split(sep, maxsplit)`, `str.splitlines` and `in`;
- `int(s, 16)` and `int(s, 10)`, with surrounding whitespace, an optional
  sign, the `0x` prefix and single underscores between digits.

How a call ends is an `Outcome`:

- `Returned(value)`;
- `Raised(error)`, the exception that escapes the call (`ValueError`,
  `IndexError`, `AttributeError` or `StopIteration`);
- `Diverges`, a `while True` that the input gives no way out of.

Each loop of the source is a Dafny method with its loop. The method is
proved equal to a function over the list of lines. The properties are then
proved about that function.

Two behaviours of the code go beyond what its doc comments say. The model
keeps both:

- `is_bt_address` counts separators only. Any 17 characters with five `-` or
  five `:` are accepted (`DashesSuffice`).
- `get_valuelist_from_one_line` loops forever on one kind of row: a
  16-byte row whose ASCII column `int(..., 16)` accepts. `int` strips
  whitespace, so every split part parses, the `try` never breaks out, and
  `while True` repeats (`DecodeHexDumpRow`).

## Model

| member | source | states |
|---|---|---|
| PyStr.SplitJoin | src/py_bluetoothctl_scan.py:174 | joining the parts of `s.split(sep, maxsplit)` with `sep` gives `s` back |
| PyStr.SplitPartsFree | src/py_bluetoothctl_scan.py:174 | no part of a split except the last contains the separator |
| PyStr.SplitCount | src/py_bluetoothctl_scan.py:297 | an unlimited split on a character yields one more part than the character's occurrences |
| PyStr.StripStrip | src/py_bluetoothctl_scan.py:433 | `strip` is idempotent |
| PyStr.Strip | src/py_bluetoothctl_scan.py:433 | the result is the slice of the input after its leading whitespace, with neither end whitespace and only whitespace after it |
| PyStr.SplitLinesOfText | src/py_bluetoothctl_scan.py:170 | `splitlines` of lines joined by `\n` gives those lines back when none holds a line break |
| PyStr.ParseIntOfStrip | src/py_bluetoothctl_scan.py:311 | `int(s, base)` depends only on `s.strip()`; a step towards `HexRow.DecodeHexDumpRow`, which states what a dump row's last part gives |
| Pushback.IteratorWithPushback.constructor | src/lib/tests/test_iterator.py:16 | a new iterator hands out exactly the given items, with nothing pushed back |
| Pushback.IteratorWithPushback.Next | src/lib/tests/test_iterator.py:20 | `next` hands out the pushed-back item first, else the next item; with none left it ends the iteration and changes nothing |
| Pushback.IteratorWithPushback.PushBack | src/lib/tests/test_iterator.py:23 | `push_back(x)` puts `x` in front of the items still to come |
| Pushback.ReadRepeatingC | src/lib/tests/test_iterator.py:17-27 | the loop of `test_iter1` on any list gives every item once and each `c` twice (`ExpectedTrace`) |
| Pushback.ExpectedTraceOfTestList | src/lib/tests/test_iterator.py:29-30 | on `['a', 'bb', 'c', 'ddd', 'ee']` the trace is `['a', 'bb', 'c', 'c', 'ddd', 'ee']` |
| Pushback.TestIter1 | src/lib/tests/test_iterator.py:13-30 | the result equals the expected list and differs from the input list, as both asserts say |
| BtPredicates.AddressLength | src/btcommon.py:39-54 | an accepted address has 17 or 12 characters |
| BtPredicates.SeparatedAddress | src/btcommon.py:39-43 | six two-character groups joined by `:` or by `-` are accepted |
| BtPredicates.HexAddress | src/btcommon.py:47-50 | twelve hex digits are accepted |
| BtPredicates.DashesSuffice | src/btcommon.py:39-41 | any 17 characters with five dashes are accepted, hex or not |
| BtPredicates.DashedExample | src/btcommon.py:26-27 | `6D-01-5E-34-31-1A` is accepted |
| BtPredicates.ColonExample | src/btcommon.py:29-30 | `F4:9A:7C:BE:5F:2A` is accepted |
| BtPredicates.HexExample | src/btcommon.py:32-33 | `F49A7CBE5F2A` is accepted |
| BtPredicates.WordExample | src/btcommon.py:35-36 | `something` is refused |
| BtPredicates.StripHoneywellHeader | src/btcommon.py:86-100 | a Honeywell message of either type loses its first 21 elements; any other input comes back unchanged |
| BtPredicates.StripTextHeader | src/btcommon.py:97-98 | a 21-character header starting `\x16\xfe` and holding `MSGGET` is cut off exactly, leaving the payload |
| BtPredicates.StripByteHeader | src/btcommon.py:74-76 | the same for `bytes` messages |
| BtPredicates.TextAndBytesAgree | src/btcommon.py:74-80 | a `str` and the `bytes` with the same codes are classified alike |
| BtPredicates.HoneywellExamples | src/btcommon.py:66-93 | the three doctests: the scanner message is recognised and stripped to `abcde\r`; the bare payload is not recognised |
| DeviceList.Fields | src/py_bluetoothctl_scan.py:174 | a line that unpacks gives three fields, the first two without spaces, that rebuild the line |
| DeviceList.FieldsOf | src/py_bluetoothctl_scan.py:174 | conversely, such a line unpacks to exactly those fields |
| DeviceList.MacAddresses | src/py_bluetoothctl_scan.py:169-176 | `get_mac_addresses` never loops; the only exception it raises is ValueError |
| DeviceList.MacAddressesSucceeds | src/py_bluetoothctl_scan.py:169-176 | it returns when every non-empty line unpacks |
| DeviceList.MacAddressesValues | src/py_bluetoothctl_scan.py:169-176 | the list is the second field of each non-empty line, in order |
| DeviceList.GetMacAddresses | src/py_bluetoothctl_scan.py:159-176 | the loop computes `MacAddresses` over `data.splitlines()` |
| DeviceList.MacAddressesOfTestData | src/py_bluetoothctl_scan.py:165-166 | device lines separated by empty lines give their addresses in order |
| DeviceList.MacAddressesOfTestText | src/py_bluetoothctl_scan.py:170-176 | the same device lines joined into one text and taken apart by `splitlines()` give their addresses in order |
| DeviceList.TestDataAddresses | src/py_bluetoothctl_scan.py:153-166 | the doctest's three addresses, read from `testdata` written out as one text |
| DeviceList.UpsertNew | src/py_bluetoothctl_scan.py:205-213 | an unseen address is added with its type, name and the line's timestamp |
| DeviceList.UpsertKnown | src/py_bluetoothctl_scan.py:216-219 | a known address keeps its entry; only the timestamp changes |
| DeviceList.UpsertFrame | src/py_bluetoothctl_scan.py:201-227 | no entry is lost; a new entry has the line's address; every other entry is unchanged |
| DeviceList.UpsertSkips | src/py_bluetoothctl_scan.py:194-227 | empty lines, lines that fail to unpack and empty addresses leave the registry unchanged; one line only, the whole pass is in `DeviceList.UpsertsKeepFirst` and `DeviceList.UpsertsGood` |
| DeviceList.UpsertGood | src/py_bluetoothctl_scan.py:226-227 | every device stays filed under its own non-empty address |
| DeviceList.UpsertsKeepFirst | src/py_bluetoothctl_scan.py:190-229 | a device once seen stays, with the type, address and name of its first line |
| DeviceList.UpsertsGood | src/py_bluetoothctl_scan.py:190-229 | the whole pass keeps every device under its own non-empty address |
| DeviceList.Registry.constructor | src/py_bluetoothctl_scan.py:45 | `bt_devices` starts empty |
| DeviceList.Registry.ProcessDevices | src/py_bluetoothctl_scan.py:181-229 | the registry becomes the old one updated line by line (`Upserts`) and is returned |
| DeviceInfo.HexRunLength | src/py_bluetoothctl_scan.py:459 | the length of the run of hex digits at the front of a string, ending before a non-hex character |
| DeviceInfo.HexRunsDigits | src/py_bluetoothctl_scan.py:459 | `re.findall(r"[0-9a-fA-F]+")` gives non-empty hex runs whose concatenation is the string's hex digits |
| DeviceInfo.HexRunsWhole | src/py_bluetoothctl_scan.py:459 | a string of hex digits is one run |
| DeviceInfo.HexRunsSplit | src/py_bluetoothctl_scan.py:459 | a non-hex character splits the runs into those before it and those after it |
| DeviceInfo.RowPrefix | src/py_bluetoothctl_scan.py:456-458 | the row text looked at is the first 47 characters, or the whole line when shorter |
| DeviceInfo.Classify | src/py_bluetoothctl_scan.py:433-462 | a line is a device line exactly when it starts with `Device `; property keys come stripped |
| DeviceInfo.Step | src/py_bluetoothctl_scan.py:433-462 | a line fails exactly when it is a `Device` line that does not unpack; no key is ever removed |
| DeviceInfo.ProcessDeviceInfo | src/py_bluetoothctl_scan.py:421-466 | the loop computes `DeviceInfoOf`: the device or the exception, and the class-level `props` afterwards |
| DeviceInfo.FeedFails | src/py_bluetoothctl_scan.py:437-438 | the pass fails exactly when some line is a `Device` line that does not unpack |
| DeviceInfo.FeedKeepsKeys | src/py_bluetoothctl_scan.py:451-462 | the pass only adds or overwrites keys of `props` |
| DeviceInfo.FeedCoherent | src/py_bluetoothctl_scan.py:446-462 | after any prefix of lines, `props` holds the hex runs collected so far under the current key |
| DeviceInfo.ClassifyDeviceLine | src/py_bluetoothctl_scan.py:437-441 | `Device <addr> <comment>` gives that header |
| DeviceInfo.ClassifyPropertyLine | src/py_bluetoothctl_scan.py:447-451 | `key: value` is split at its first colon, both sides stripped |
| DeviceInfo.ClassifyRow | src/py_bluetoothctl_scan.py:454-459 | a line without a colon is a row of the hex runs of its first 47 characters |
| DeviceInfo.StepRow | src/py_bluetoothctl_scan.py:461-462 | a row extends the hex list and stores it under the current key; one line only, a whole block is in `DeviceInfo.FeedRows` and `DeviceInfo.PropertyBlock` |
| DeviceInfo.StepProperty | src/py_bluetoothctl_scan.py:447-452 | a `key: value` line stores the text value under the key, makes it the current key and starts an empty hex list |
| DeviceInfo.FeedRows | src/py_bluetoothctl_scan.py:454-462 | rows under the current key leave the concatenation of all their hex runs under that key (nothing changes when there are no rows) |
| DeviceInfo.PropertyBlock | src/py_bluetoothctl_scan.py:446-462 | a `key: value` line followed by rows leaves the text value under the key when there are no rows, and otherwise the list of all the rows' hex runs |
| DeviceInfo.FeedHeader | src/py_bluetoothctl_scan.py:437-441 | the recorded header is that of the last `Device` line |
| DeviceInfo.DeviceInfoRaises | src/py_bluetoothctl_scan.py:437-438 | ValueError is raised exactly when some `Device` line does not unpack |
| DeviceInfo.DeviceInfoDevice | src/py_bluetoothctl_scan.py:437-442 | a returned device carries the last `Device` line's fields and the whole text |
| DeviceInfo.DeviceInfoWithoutDevice | src/py_bluetoothctl_scan.py:464-465 | without a `Device` line, `print(bt_device)` raises AttributeError (`addr` was never set) |
| DeviceInfo.DeviceInfoKeepsProps | src/py_bluetoothctl_scan.py:34 | the shared `props` keeps every key it had before the call |
| HexRow.ParseAll | src/py_bluetoothctl_scan.py:310-311 | one `int(part, 16)` result per part |
| HexRow.ParsePrefixMeaning | src/py_bluetoothctl_scan.py:309-315 | the values are the parsed parts before the first that fails; there are none exactly when every part parses, and then the loop never ends |
| HexRow.RowValues | src/py_bluetoothctl_scan.py:303-317 | a row gives at most 16 values (`maxsplit=16`), or `None` where the loop spins |
| HexRow.DecodeRow | src/py_bluetoothctl_scan.py:303-317 | `get_valuelist_from_one_line`'s loops compute `RowValues` |
| HexRow.ParseTwoHex | src/py_bluetoothctl_scan.py:311 | a two-digit hex token parses to its byte |
| HexRow.ParseIntNonDigitStart | src/py_bluetoothctl_scan.py:311 | a token starting with a non-hex, non-sign, non-space character does not parse |
| HexRow.RowValuesNonHexStart | src/py_bluetoothctl_scan.py:304-315 | a line whose text starts with such a character gives `[]` |
| HexRow.SplitJoinedTokens | src/py_bluetoothctl_scan.py:307 | splitting space-joined tokens hands the tokens back, and the rest is split with the remaining limit |
| HexRow.DecodeHexDumpRow | src/py_bluetoothctl_scan.py:303-317 | a printed dump row gives its bytes, except a 16-byte row whose ASCII column parses as hex, which loops forever |
| HexBlock.GetKey | src/py_bluetoothctl_scan.py:296-300 | `get_key` never loops and raises only ValueError |
| HexBlock.GetKeyAccepts | src/py_bluetoothctl_scan.py:297 | `get_key` succeeds exactly when the line holds one colon |
| HexBlock.GetKeyOf | src/py_bluetoothctl_scan.py:296-300 | on `head:tail` it gives `tail` stripped |
| HexBlock.CollectShape | src/py_bluetoothctl_scan.py:326-341 | `get_value` leaves a suffix of the lines that starts at a tagged line, and its values extend what it was given |
| HexBlock.CollectStep | src/py_bluetoothctl_scan.py:333-341 | a spinning row diverges; a tagged row ends the block and is pushed back; any other row is appended and reading goes on; one row only, a whole block is in `HexBlock.CollectRows` |
| HexBlock.GetValue | src/py_bluetoothctl_scan.py:320-341 | the loop on the iterator returns `Collect`'s values and leaves the iterator at `Collect`'s rest |
| HexBlock.GetValueStep | src/py_bluetoothctl_scan.py:327-341 | one pass of that loop keeps `Collect` of the remaining lines unchanged |
| HexBlock.CollectRows | src/py_bluetoothctl_scan.py:326-341 | untagged rows then a tagged empty row or the end: the block's values are all the rows' values, and reading stops there |
| HexBlock.Scan | src/py_bluetoothctl_scan.py:355-385 | the main loop raises nothing but ValueError |
| HexBlock.SpecialDataScan | src/py_bluetoothctl_scan.py:345-355 | with both tags present and some lines, the loop starts from the first line; what the loop returns is in `HexBlock.ScanBlock`, `HexBlock.ScanBlockNoKey` and `HexBlock.ScanSkip` |
| HexBlock.SpecialDataNoTag | src/py_bluetoothctl_scan.py:345-346 | when either tag is missing from the text the result is `{}` |
| HexBlock.GetSpecialData | src/py_bluetoothctl_scan.py:281-387 | the method on the pushback iterator computes `SpecialData` |
| HexBlock.GetServiceData | src/py_bluetoothctl_scan.py:391-401 | `get_special_data` with the ServiceData tags |
| HexBlock.GetManufData | src/py_bluetoothctl_scan.py:405-416 | `get_special_data` with the ManufacturerData tags |
| HexBlock.ScanEntries | src/py_bluetoothctl_scan.py:374-377 | the loop only stores a non-empty key with a non-empty list |
| HexBlock.SpecialDataEntries | src/py_bluetoothctl_scan.py:374-375 | every entry returned has a non-empty key and values |
| HexBlock.ScanKeys | src/py_bluetoothctl_scan.py:361-379 | the loop only stores keys read from lines holding `tag1` |
| HexBlock.SpecialDataKeys | src/py_bluetoothctl_scan.py:361-364 | every key returned comes from a `tag1` line of the text |
| HexBlock.ScanBlock | src/py_bluetoothctl_scan.py:361-379 | a key line, a value line and rows store the rows' values under the key, and the loop goes on after the block with no key pending |
| HexBlock.ScanBlockNoKey | src/py_bluetoothctl_scan.py:365-379 | a value line and its rows reached with no key pending store nothing, and the loop goes on after the block |
| HexBlock.ScanSkip | src/py_bluetoothctl_scan.py:380-382 | untagged lines are skipped |
| HexBlockExamples.OneBlockScan | src/py_bluetoothctl_scan.py:355-385 | header lines then one block give a one-entry dictionary |
| HexBlockExamples.TwoBlockScan | src/py_bluetoothctl_scan.py:355-385 | two blocks give both entries |
| HexBlockExamples.NoTagExample | src/py_bluetoothctl_scan.py:287-288 | `get_special_data("abc", ...)` is `{}` |
| HexBlockExamples.OneBlockText | src/py_bluetoothctl_scan.py:291-292 | a report of tag-free lines and one printed block gives the key mapped to both rows' bytes |
| HexBlockExamples.ServiceDataInputs | src/py_bluetoothctl_scan.py:247-250 | the ServiceData tags, key and two rows of `test_info_servicedata` meet `OneBlockText`'s conditions, and the rows' bytes are the doctest's 20 values |
| HexBlockExamples.TwoBlockText | src/py_bluetoothctl_scan.py:410-411 | a report with two printed blocks gives both keys, each with its rows' bytes |
| HexBlockExamples.ManufDataInputs | src/py_bluetoothctl_scan.py:270-277 | the ManufacturerData tags, both keys and all four rows of `test_info_manufdata` meet `TwoBlockText`'s conditions, and the rows' bytes are the doctest's two lists of 24 values |
| HexBlockExamples.ManufRow1Decodes | src/py_bluetoothctl_scan.py:272 | the first ManufacturerData row decodes to the first 16 values of the doctest |
| LeScan.ClassifyLine | src/btle_scan.py:39-41 | a line fails to unpack exactly when it lacks both the banner and a space |
| LeScan.ProcessLeScan | src/btle_scan.py:27-53 | the loop always ends; it returns `ScanOf` of the lines when that succeeds and raises ValueError exactly when it fails |
| LeScan.ScanFails | src/btle_scan.py:41 | the scan fails exactly when some line is neither the banner nor splittable |
| LeScan.UnknownValues | src/btle_scan.py:45 | every unknown address maps to `""` |
| LeScan.ResolvedAddresses | src/btle_scan.py:46-47 | an address is resolved exactly when some line names it |
| LeScan.ResolvedNames | src/btle_scan.py:47 | a resolved address carries the name of its last naming line |
| LeScan.UnknownAddresses | src/btle_scan.py:43-50 | an address is unknown exactly when it appeared as `(unknown)` and no later line named it |
| LeScan.SampleOutput | src/btle_scan.py:16-23 | output shaped like `sample_output` gives three resolved addresses and one unknown |
| SdpRecords.ClassifyInq | src/btcommon.py:458-474 | a line is blank exactly when it is empty |
| SdpRecords.ClassifyTagLine | src/btcommon.py:463-474 | `Tag: value` fills the field of its tag; `Channel`/`PSM` set the port and protocol, or are a failing `int` |
| SdpRecords.ParseInq | src/btcommon.py:428-475 | the loop computes `ParseInqOf` |
| SdpRecords.ReadInqLine | src/btcommon.py:444-474 | one pass of the loop is `StepInq` on the line's kind |
| SdpRecords.ReadTagLine | src/btcommon.py:461-474 | the tag dispatch fills the record as `Fill` does |
| SdpRecords.ParseInqGood | src/btcommon.py:444-455 | every record returned has a name and the target as host |
| SdpRecords.RunCount | src/btcommon.py:444-459 | records are appended at most once per empty line |
| SdpRecords.RunExtends | src/btcommon.py:446 | records are only ever appended |
| SdpRecords.RunRaises | src/btcommon.py:463-473 | an exception escapes exactly when a tag line has no value (IndexError) or a port is not an integer (ValueError) |
| SdpRecords.NoBlankNoServices | src/btcommon.py:458-459 | without an empty line nothing is returned |
| SdpRecords.TwoStanzas | src/btcommon.py:442-474 | a stanza followed by an empty line is appended; the record in progress at the end is never appended, even after its empty line |

## Left out

- `src/lib/helper.py`, which defines `IteratorWithPushback`, is not part of this model. The class follows its test and its one caller. Pushing back twice in a row is excluded by `PushBack`'s precondition.
- Terminal output is left out: `debug`, `print` and the `dumpFuncname` decorator. The exception is `print(bt_device)` in `process_device_info`, which can raise and is modelled.
- `live_scan`, `get_live_devices`, `main` and the other functions that run commands, open sockets or use the database are left out. They are I/O, not parsing.
- Timestamps are a parameter: `get_timestamp` reads the clock. `Registry.ProcessDevices` takes one timestamp per line.
- The `BTDevice` objects are values. `bt_devices` maps each address to a value, so aliasing between the registry and its callers is not modelled.
- `BTDevice.props` is a dictionary on the class, shared by every instance. It is an explicit map passed into and out of `ProcessDeviceInfo`.
- `DeviceList.Registry.ProcessDevices`: requires the registry invariant `GoodDevices`, which every call keeps. A `bt_devices` filled by other code is not covered.
- `parse_inq` decodes a `bytes` input as UTF-8, and that step is left out: the input is already a `str`.
- The record fields that are always `None` (`description`, `service-classes`, `profiles`) are not carried.
- `is_honeywell_scanner_msg` on values that are neither `str` nor `bytes` is left out. Those always give `False`.
- `int()` is modelled for ASCII digits only. Python also accepts other Unicode decimal digits.
- `HexBlockExamples.OneBlockText`: the `get_service_data` doctest is proved in two parts: `OneBlockText` for any text of that form, and `ServiceDataInputs` for the tags, key and rows of `test_info_servicedata`. It is not proved on the literal text in one lemma.
  - The device, alias, flag and UUID lines in front of the block are any lines without a tag and without a line break.
- `HexBlockExamples.TwoBlockText`: the same applies to the `get_manuf_data` doctest: `TwoBlockText` for any text of that form, and `ManufDataInputs` for the tags, both keys and all four rows of `test_info_manufdata`. Stated on the literal text in one lemma, the solver has to evaluate the whole literal and runs past its resource limit.
- `LeScan.SampleOutput`: proved for any output of the shape of `sample_output`. It takes the addresses and names as parameters.
- `BtPredicates.DashedExample`: the address doctests are stated on the joined groups, e.g. `Join(["6D", ...], "-")`. The literal string is not used. The same holds for `ColonExample`.
