/** `get_special_data` of src/py_bluetoothctl_scan.py and its nested helpers
    `get_key` and `get_value`: the key/value blocks of ServiceData and
    ManufacturerData that `bluetoothctl info` prints, read into a dictionary
    from key to the list of byte values of its hex dump. */
module HexBlock {
  import opened Wrappers
  import opened PyStr
  import opened HexRow
  import opened Pushback

  const ServiceKeyTag := "ServiceData Key:"
  const ServiceValueTag := "ServiceData Value:"
  const ManufKeyTag := "ManufacturerData Key:"
  const ManufValueTag := "ManufacturerData Value:"

  /** The dictionary `get_special_data` returns. */
  type SpecialMap = map<string, seq<int>>

  // ---------------------------------------------------------------------------
  // get_key

  /** `get_key(line)`: `_header, key = line.split(":")` then `key.strip()`;
      the unpacking raises ValueError unless the split gives exactly two parts. */
  function GetKey(line: string): (r: Outcome<string>)
    ensures !r.Diverges?
    ensures r.Raised? ==> r.error == ValueError
  {
    var parts := Split(line, ":", -1);
    if |parts| == 2 then Returned(Strip(parts[1])) else Raised(ValueError)
  }

  /** A key line is accepted exactly when it holds one colon. */
  lemma GetKeyAccepts(line: string)
    ensures GetKey(line).Returned? <==> multiset(line)[':'] == 1
  {
    SplitCount(line, ':', -1);
  }

  /** The key is the stripped text behind the one colon. */
  lemma GetKeyOf(head: string, tail: string)
    requires ':' !in head && ':' !in tail
    ensures GetKey(head + ":" + tail) == Returned(Strip(tail))
  {
    SplitFirst(head, ':', tail, -1);
    ContainsChar(tail, ':');
    assert Split(tail, ":", -2) == [tail];
  }

  // ---------------------------------------------------------------------------
  // get_value

  /** How one line is turned into values: `get_valuelist_from_one_line`,
      that is `RowValues`, where `get_special_data` is run; the lemmas below
      hold for any decoder. `None` stands for a line on which it spins. */
  type Decoder = string -> Option<seq<int>>

  /** What `get_value` has collected, and the lines it has left for the
      caller, the pushed-back tag line first. */
  datatype Collected = Collected(values: seq<int>, rest: seq<string>)

  predicate HasTag(line: string, tag1: string, tag2: string) {
    Contains(line, tag1) || Contains(line, tag2)
  }

  /** `get_value` over the lines still to come, with `acc` collected so far:
      every line's row values are appended, including those of the line that
      holds a tag, which is then pushed back. `Diverges` where a row makes
      `get_valuelist_from_one_line` spin. */
  function Collect(rest: seq<string>, tag1: string, tag2: string, decode: Decoder, acc: seq<int>): (r: Outcome<Collected>)
    ensures !r.Raised?
    ensures r.Returned? ==> |r.value.rest| <= |rest|
    decreases |rest|
  {
    if rest == [] then Returned(Collected(acc, []))
    else match decode(rest[0])
      case None => Diverges
      case Some(vs) =>
        if HasTag(rest[0], tag1, tag2) then Returned(Collected(acc + vs, rest))
        else Collect(rest[1..], tag1, tag2, decode, acc + vs)
  }

  /** What `Collect` leaves: a suffix of the lines, starting at a tagged
      line when not empty, and values extending `acc`. */
  lemma {:induction false} CollectShape(rest: seq<string>, tag1: string, tag2: string, decode: Decoder, acc: seq<int>)
    ensures var r := Collect(rest, tag1, tag2, decode, acc);
      r.Returned? ==>
        |r.value.rest| <= |rest| && r.value.rest == rest[|rest| - |r.value.rest|..] &&
        (r.value.rest != [] ==> HasTag(r.value.rest[0], tag1, tag2)) &&
        |acc| <= |r.value.values| && r.value.values[..|acc|] == acc
    decreases |rest|
  {
    if rest != [] && decode(rest[0]).Some? && !HasTag(rest[0], tag1, tag2) {
      var vs := decode(rest[0]).value;
      CollectShape(rest[1..], tag1, tag2, decode, acc + vs);
      var r := Collect(rest[1..], tag1, tag2, decode, acc + vs);
      if r.Returned? {
        assert r.value.values[..|acc|] == (acc + vs)[..|acc|];
      }
    }
  }

  lemma CollectStep(rest: seq<string>, tag1: string, tag2: string, decode: Decoder, acc: seq<int>)
    requires rest != []
    ensures decode(rest[0]).None? ==> Collect(rest, tag1, tag2, decode, acc).Diverges?
    ensures decode(rest[0]).Some? && HasTag(rest[0], tag1, tag2) ==>
      Collect(rest, tag1, tag2, decode, acc) == Returned(Collected(acc + decode(rest[0]).value, rest))
    ensures decode(rest[0]).Some? && !HasTag(rest[0], tag1, tag2) ==>
      Collect(rest, tag1, tag2, decode, acc) == Collect(rest[1..], tag1, tag2, decode, acc + decode(rest[0]).value)
  {
  }

  lemma CollectUntagged(rest: seq<string>, tag1: string, tag2: string, decode: Decoder, acc: seq<int>)
    requires rest != [] && decode(rest[0]).Some? && !HasTag(rest[0], tag1, tag2)
    ensures Collect(rest, tag1, tag2, decode, acc) == Collect(rest[1..], tag1, tag2, decode, acc + decode(rest[0]).value)
  {
  }

  /** `get_value(lines)` on the pushback iterator. */
  method GetValue(it: IteratorWithPushback, tag1: string, tag2: string) returns (r: Outcome<seq<int>>)
    requires it.Valid() && it.slot.None?
    modifies it
    ensures it.Valid()
    ensures var c := Collect(old(it.Remaining()), tag1, tag2, RowValues, []);
      (c.Diverges? ==> r.Diverges?) &&
      (c.Returned? ==> r == Returned(c.value.values) && it.Remaining() == c.value.rest)
  {
    ghost var start := it.Remaining();
    var valueList: seq<int> := [];
    while true
      invariant it.Valid() && it.slot.None?
      invariant Collect(it.Remaining(), tag1, tag2, RowValues, valueList) == Collect(start, tag1, tag2, RowValues, [])
      decreases |it.Remaining()|
    {
      var done, diverged;
      done, diverged, valueList := GetValueStep(it, tag1, tag2, valueList);
      if done {
        return if diverged then Diverges else Returned(valueList);
      }
    }
  }

  /** `line = next(lines)` and `get_valuelist_from_one_line(line)`. */
  method ReadRow(it: IteratorWithPushback) returns (line: Option<string>, values: Option<seq<int>>)
    requires it.Valid()
    modifies it
    ensures it.Valid() && it.slot.None?
    ensures old(it.Remaining()) == [] ==> line.None? && it.Remaining() == []
    ensures old(it.Remaining()) != [] ==>
      line == Some(old(it.Remaining())[0]) && it.Remaining() == old(it.Remaining())[1..] &&
      values == RowValues(line.value)
  {
    line := it.Next();
    values := None;
    if line.Some? {
      values := DecodeRow(line.value);
    }
  }

  /** One pass of `get_value`'s loop: read a line, decode it, append its
      values, and stop at the end of the lines, at a row that spins, or at
      a tag line, which is pushed back. */
  method GetValueStep(it: IteratorWithPushback, tag1: string, tag2: string, acc: seq<int>)
    returns (done: bool, diverged: bool, acc': seq<int>)
    requires it.Valid() && it.slot.None?
    modifies it
    ensures it.Valid()
    ensures !done ==> it.slot.None? && |it.Remaining()| < |old(it.Remaining())|
    ensures !done ==> Collect(it.Remaining(), tag1, tag2, RowValues, acc') == Collect(old(it.Remaining()), tag1, tag2, RowValues, acc)
    ensures done && diverged ==> Collect(old(it.Remaining()), tag1, tag2, RowValues, acc).Diverges?
    ensures done && !diverged ==>
      Collect(old(it.Remaining()), tag1, tag2, RowValues, acc) == Returned(Collected(acc', it.Remaining()))
  {
    ghost var rem := it.Remaining();
    var line, tmp := ReadRow(it);
    if line.None? {
      return true, false, acc;
    }
    assert line.value == rem[0] && tmp == RowValues(rem[0]);
    if tmp.None? {
      CollectStep(rem, tag1, tag2, RowValues, acc);
      return true, true, acc;
    }
    acc' := acc + tmp.value;
    if Contains(line.value, tag1) || Contains(line.value, tag2) {
      assert HasTag(rem[0], tag1, tag2);
      CollectStep(rem, tag1, tag2, RowValues, acc);
      assert [line.value] + it.Remaining() == rem by {
        assert rem == [rem[0]] + rem[1..];
      }
      it.PushBack(line.value);
      return true, false, acc';
    }
    assert !HasTag(rem[0], tag1, tag2);
    CollectStep(rem, tag1, tag2, RowValues, acc);
    return false, false, acc';
  }

  // ---------------------------------------------------------------------------
  // get_special_data

  /** The main loop of `get_special_data` from the current `line` on, with
      the lines still to come in `rest`, the pending `key` (`""` for Python's
      `None` and `""`, both false) and the dictionary built so far. The loop
      ends where `next(lines)` raises StopIteration. */
  function Scan(line: string, rest: seq<string>, tag1: string, tag2: string, decode: Decoder, key: string, d: SpecialMap):
    (r: Outcome<SpecialMap>)
    ensures r.Raised? ==> r.error == ValueError
    decreases |rest|
  {
    if Contains(line, tag1) then
      match GetKey(line)
      case Raised(e) => Raised(e)
      case Diverges => Diverges
      case Returned(k) => if rest == [] then Returned(d) else Scan(rest[0], rest[1..], tag1, tag2, decode, k, d)
    else if Contains(line, tag2) then
      var c := Collect(rest, tag1, tag2, decode, []);
      if c.Diverges? then Diverges
      else
        var d' := if key != "" && c.value.values != [] then d[key := c.value.values] else d;
        if c.value.rest == [] then Returned(d')
        else Scan(c.value.rest[0], c.value.rest[1..], tag1, tag2, decode, "", d')
    else if rest == [] then Returned(d)
    else Scan(rest[0], rest[1..], tag1, tag2, decode, key, d)
  }

  /** `get_special_data(info, tag1, tag2)`: `{}` at once unless both tags
      occur in `info`; otherwise the first line is read outside the loop's
      `try` (StopIteration would escape) and the loop runs. */
  function SpecialData(info: string, tag1: string, tag2: string): (r: Outcome<SpecialMap>)
  {
    if !Contains(info, tag1) || !Contains(info, tag2) then Returned(map[])
    else
      var lines := SplitLines(info);
      if lines == [] then Raised(StopIteration)
      else Scan(lines[0], lines[1..], tag1, tag2, RowValues, "", map[])
  }

  /** Once both tags occur and the text has lines, the main loop runs
      from its first line. */
  lemma SpecialDataScan(info: string, tag1: string, tag2: string, lines: seq<string>)
    requires Contains(info, tag1) && Contains(info, tag2)
    requires SplitLines(info) == lines && lines != []
    ensures SpecialData(info, tag1, tag2) == Scan(lines[0], lines[1..], tag1, tag2, RowValues, "", map[])
  {
  }

  /** `get_special_data` on the pushback iterator. */
  method GetSpecialData(info: string, tag1: string, tag2: string) returns (r: Outcome<SpecialMap>)
    ensures r == SpecialData(info, tag1, tag2)
  {
    if !Contains(info, tag1) || !Contains(info, tag2) {
      return Returned(map[]);
    }
    var keyToReturn := "";
    var dictToReturn: SpecialMap := map[];
    var lines := new IteratorWithPushback(SplitLines(info));
    var first := lines.Next();
    if first.None? {
      return Raised(StopIteration);
    }
    var line := first.value;
    while true
      invariant lines.Valid() && lines.slot.None?
      invariant Scan(line, lines.Remaining(), tag1, tag2, RowValues, keyToReturn, dictToReturn) == SpecialData(info, tag1, tag2)
      decreases |lines.Remaining()|
    {
      if Contains(line, tag1) {
        var k := GetKey(line);
        if !k.Returned? {
          return Raised(k.error);
        }
        keyToReturn := k.value;
        var next := lines.Next();
        if next.None? {
          break;
        }
        line := next.value;
      } else if Contains(line, tag2) {
        var valueToReturn := GetValue(lines, tag1, tag2);
        if valueToReturn.Diverges? {
          return Diverges;
        }
        if keyToReturn != "" && valueToReturn.value != [] {
          dictToReturn := dictToReturn[keyToReturn := valueToReturn.value];
        }
        keyToReturn := "";
        var next := lines.Next();
        if next.None? {
          break;
        }
        line := next.value;
      } else {
        var next := lines.Next();
        if next.None? {
          break;
        }
        line := next.value;
      }
    }
    return Returned(dictToReturn);
  }

  /** `get_service_data(info)`. */
  method GetServiceData(info: string) returns (r: Outcome<SpecialMap>)
    ensures r == SpecialData(info, ServiceKeyTag, ServiceValueTag)
  {
    r := GetSpecialData(info, ServiceKeyTag, ServiceValueTag);
  }

  /** `get_manuf_data(info)`. */
  method GetManufData(info: string) returns (r: Outcome<SpecialMap>)
    ensures r == SpecialData(info, ManufKeyTag, ManufValueTag)
  {
    r := GetSpecialData(info, ManufKeyTag, ManufValueTag);
  }

  // ---------------------------------------------------------------------------
  // What the dictionary holds

  /** Only a truthy key with a non-empty list is stored. */
  predicate GoodEntries(d: SpecialMap) {
    forall k :: k in d ==> k != "" && d[k] != []
  }

  lemma {:induction false} ScanEntries(line: string, rest: seq<string>, tag1: string, tag2: string, decode: Decoder, key: string, d: SpecialMap)
    requires GoodEntries(d)
    ensures Scan(line, rest, tag1, tag2, decode, key, d).Returned? ==> GoodEntries(Scan(line, rest, tag1, tag2, decode, key, d).value)
    decreases |rest|
  {
    if Contains(line, tag1) {
      var k := GetKey(line);
      if k.Returned? && rest != [] {
        ScanEntries(rest[0], rest[1..], tag1, tag2, decode, k.value, d);
      }
    } else if Contains(line, tag2) {
      var c := Collect(rest, tag1, tag2, decode, []);
      if c.Returned? {
        var d' := if key != "" && c.value.values != [] then d[key := c.value.values] else d;
        if c.value.rest != [] {
          ScanEntries(c.value.rest[0], c.value.rest[1..], tag1, tag2, decode, "", d');
        }
      }
    } else if rest != [] {
      ScanEntries(rest[0], rest[1..], tag1, tag2, decode, key, d);
    }
  }

  /** Every entry `get_special_data` returns has a non-empty key and a
      non-empty list of values. */
  lemma SpecialDataEntries(info: string, tag1: string, tag2: string)
    ensures SpecialData(info, tag1, tag2).Returned? ==> GoodEntries(SpecialData(info, tag1, tag2).value)
  {
    var lines := SplitLines(info);
    if Contains(info, tag1) && Contains(info, tag2) && lines != [] {
      ScanEntries(lines[0], lines[1..], tag1, tag2, RowValues, "", map[]);
    }
  }

  /** The keys that the lines holding `tag1` name. */
  function KeysOf(lines: seq<string>, tag1: string): set<string> {
    set x | x in lines && Contains(x, tag1) && GetKey(x).Returned? :: GetKey(x).value
  }

  lemma SuffixIn(rest: seq<string>, n: nat, x: string)
    requires n <= |rest| && x in rest[|rest| - n..]
    ensures x in rest
  {
  }

  lemma {:induction false} ScanKeys(line: string, rest: seq<string>, tag1: string, tag2: string, decode: Decoder, key: string, d: SpecialMap,
                                    all: seq<string>)
    requires line in all && forall x :: x in rest ==> x in all
    requires key == "" || key in KeysOf(all, tag1)
    requires d.Keys <= KeysOf(all, tag1)
    ensures Scan(line, rest, tag1, tag2, decode, key, d).Returned? ==> Scan(line, rest, tag1, tag2, decode, key, d).value.Keys <= KeysOf(all, tag1)
    decreases |rest|
  {
    if Contains(line, tag1) {
      var k := GetKey(line);
      if k.Returned? && rest != [] {
        assert k.value in KeysOf(all, tag1);
        ScanKeys(rest[0], rest[1..], tag1, tag2, decode, k.value, d, all);
      }
    } else if Contains(line, tag2) {
      var c := Collect(rest, tag1, tag2, decode, []);
      if c.Returned? {
        CollectShape(rest, tag1, tag2, decode, []);
        var d' := if key != "" && c.value.values != [] then d[key := c.value.values] else d;
        if c.value.rest != [] {
          forall x | x in c.value.rest ensures x in all {
            SuffixIn(rest, |c.value.rest|, x);
          }
          ScanKeys(c.value.rest[0], c.value.rest[1..], tag1, tag2, decode, "", d', all);
        }
      }
    } else if rest != [] {
      ScanKeys(rest[0], rest[1..], tag1, tag2, decode, key, d, all);
    }
  }

  /** Every key `get_special_data` returns is the key of some line of
      `info` holding `tag1`. */
  lemma SpecialDataKeys(info: string, tag1: string, tag2: string)
    ensures SpecialData(info, tag1, tag2).Returned? ==>
      SpecialData(info, tag1, tag2).value.Keys <= KeysOf(SplitLines(info), tag1)
  {
    var lines := SplitLines(info);
    if Contains(info, tag1) && Contains(info, tag2) && lines != [] {
      ScanKeys(lines[0], lines[1..], tag1, tag2, RowValues, "", map[], lines);
    }
  }

  // ---------------------------------------------------------------------------
  // One key/value block

  /** Rows that decode and hold neither tag. */
  predicate PlainRows(rows: seq<string>, tag1: string, tag2: string, decode: Decoder) {
    forall i :: 0 <= i < |rows| ==> decode(rows[i]).Some? && !HasTag(rows[i], tag1, tag2)
  }

  /** The values of `rows`, one row after the other. */
  function RowsValues(rows: seq<string>, decode: Decoder): (r: seq<int>)
    requires forall i :: 0 <= i < |rows| ==> decode(rows[i]).Some?
  {
    if rows == [] then [] else decode(rows[0]).value + RowsValues(rows[1..], decode)
  }

  /** What may follow a block: nothing, or a line holding a tag that decodes
      to no values (the line `get_value` pushes back). */
  predicate BlockEnd(rest: seq<string>, tag1: string, tag2: string, decode: Decoder) {
    rest != [] ==> decode(rest[0]) == Some([]) && HasTag(rest[0], tag1, tag2)
  }

  lemma {:induction false} CollectRows(rows: seq<string>, rest: seq<string>, tag1: string, tag2: string, decode: Decoder, acc: seq<int>)
    requires PlainRows(rows, tag1, tag2, decode) && BlockEnd(rest, tag1, tag2, decode)
    ensures Collect(rows + rest, tag1, tag2, decode, acc) == Returned(Collected(acc + RowsValues(rows, decode), rest))
    decreases |rows|
  {
    if rows == [] {
      CollectEnd(rest, tag1, tag2, decode, acc);
      assert rows + rest == rest;
      assert acc + RowsValues(rows, decode) == acc;
    } else {
      PlainRowsTail(rows, tag1, tag2, decode);
      var vs := decode(rows[0]).value;
      CollectRows(rows[1..], rest, tag1, tag2, decode, acc + vs);
      CollectRowsStep(rows, rest, tag1, tag2, decode, acc, RowsValues(rows[1..], decode));
    }
  }

  lemma PlainRowsTail(rows: seq<string>, tag1: string, tag2: string, decode: Decoder)
    requires rows != [] && PlainRows(rows, tag1, tag2, decode)
    ensures decode(rows[0]).Some? && !HasTag(rows[0], tag1, tag2)
    ensures PlainRows(rows[1..], tag1, tag2, decode)
    ensures RowsValues(rows, decode) == decode(rows[0]).value + RowsValues(rows[1..], decode)
  {
    forall i | 0 <= i < |rows[1..]| ensures decode(rows[1..][i]).Some? && !HasTag(rows[1..][i], tag1, tag2) {
      assert rows[1..][i] == rows[i + 1];
    }
  }

  /** The recursive step of `CollectRows`: the first row's values, then the rest. */
  lemma CollectRowsStep(rows: seq<string>, rest: seq<string>, tag1: string, tag2: string, decode: Decoder,
                        acc: seq<int>, more: seq<int>)
    requires rows != [] && decode(rows[0]).Some? && !HasTag(rows[0], tag1, tag2)
    requires Collect(rows[1..] + rest, tag1, tag2, decode, acc + decode(rows[0]).value) ==
      Returned(Collected(acc + decode(rows[0]).value + more, rest))
    ensures Collect(rows + rest, tag1, tag2, decode, acc) == Returned(Collected(acc + (decode(rows[0]).value + more), rest))
  {
    CollectRow(rows[0], rows[1..], rest, tag1, tag2, decode, acc, more);
    assert [rows[0]] + (rows[1..] + rest) == rows + rest;
  }

  /** One row of `CollectRows`, given the rows after it. */
  lemma CollectRow(row: string, more: seq<string>, rest: seq<string>, tag1: string, tag2: string, decode: Decoder,
                   acc: seq<int>, moreValues: seq<int>)
    requires decode(row).Some? && !HasTag(row, tag1, tag2)
    requires Collect(more + rest, tag1, tag2, decode, acc + decode(row).value) ==
      Returned(Collected(acc + decode(row).value + moreValues, rest))
    ensures Collect([row] + (more + rest), tag1, tag2, decode, acc) ==
      Returned(Collected(acc + (decode(row).value + moreValues), rest))
  {
    var tail := more + rest;
    assert ([row] + tail)[0] == row && ([row] + tail)[1..] == tail;
    CollectUntagged([row] + tail, tag1, tag2, decode, acc);
    var vs := decode(row).value;
    assert acc + vs + moreValues == acc + (vs + moreValues);
  }

  lemma CollectEnd(rest: seq<string>, tag1: string, tag2: string, decode: Decoder, acc: seq<int>)
    requires BlockEnd(rest, tag1, tag2, decode)
    ensures Collect(rest, tag1, tag2, decode, acc) == Returned(Collected(acc, rest))
  {
    if rest != [] {
      CollectStep(rest, tag1, tag2, decode, acc);
      assert acc + [] == acc;
    }
  }

  /** A key line, a value line and its rows: the dictionary gets the rows'
      values under the key (when both are non-empty), the pending key is
      cleared, and the loop goes on with the line after the block. */
  lemma ScanBlock(keyLine: string, valueLine: string, rows: seq<string>, rest: seq<string>,
                  tag1: string, tag2: string, decode: Decoder, key: string, d: SpecialMap, k: string)
    requires Contains(keyLine, tag1) && GetKey(keyLine) == Returned(k)
    requires !Contains(valueLine, tag1) && Contains(valueLine, tag2)
    requires PlainRows(rows, tag1, tag2, decode) && BlockEnd(rest, tag1, tag2, decode)
    ensures var d' := if k != "" && RowsValues(rows, decode) != [] then d[k := RowsValues(rows, decode)] else d;
      Scan(keyLine, [valueLine] + rows + rest, tag1, tag2, decode, key, d) ==
      if rest == [] then Returned(d') else Scan(rest[0], rest[1..], tag1, tag2, decode, "", d')
  {
    var lines := [valueLine] + rows + rest;
    assert lines[0] == valueLine && lines[1..] == rows + rest;
    assert Collect(rows + rest, tag1, tag2, decode, []) == Returned(Collected(RowsValues(rows, decode), rest)) by {
      CollectRows(rows, rest, tag1, tag2, decode, []);
      assert [] + RowsValues(rows, decode) == RowsValues(rows, decode);
    }
  }

  /** A value line reached with no key pending (none read yet, or the last
      one used up by an earlier block): its rows are read and dropped, and
      the loop goes on with the line after the block. */
  lemma ScanBlockNoKey(valueLine: string, rows: seq<string>, rest: seq<string>,
                       tag1: string, tag2: string, decode: Decoder, d: SpecialMap)
    requires !Contains(valueLine, tag1) && Contains(valueLine, tag2)
    requires PlainRows(rows, tag1, tag2, decode) && BlockEnd(rest, tag1, tag2, decode)
    ensures Scan(valueLine, rows + rest, tag1, tag2, decode, "", d) ==
      if rest == [] then Returned(d) else Scan(rest[0], rest[1..], tag1, tag2, decode, "", d)
  {
    assert Collect(rows + rest, tag1, tag2, decode, []) == Returned(Collected(RowsValues(rows, decode), rest)) by {
      CollectRows(rows, rest, tag1, tag2, decode, []);
      assert [] + RowsValues(rows, decode) == RowsValues(rows, decode);
    }
  }

  /** Without both tags in the text, `get_special_data` returns `{}` at
      once, whatever the text holds. */
  lemma SpecialDataNoTag(info: string, tag1: string, tag2: string)
    requires !Contains(info, tag1) || !Contains(info, tag2)
    ensures SpecialData(info, tag1, tag2) == Returned(map[])
  {
  }

  /** Lines holding neither tag are passed over. */
  lemma {:induction false} ScanSkip(pre: seq<string>, line: string, rest: seq<string>,
                                    tag1: string, tag2: string, decode: Decoder, key: string, d: SpecialMap)
    requires pre != [] && forall i :: 0 <= i < |pre| ==> !HasTag(pre[i], tag1, tag2)
    ensures Scan(pre[0], pre[1..] + [line] + rest, tag1, tag2, decode, key, d) == Scan(line, rest, tag1, tag2, decode, key, d)
    decreases |pre|
  {
    var more := pre[1..] + [line] + rest;
    if |pre| == 1 {
      assert more == [line] + rest;
      assert more[0] == line && more[1..] == rest;
    } else {
      assert more[0] == pre[1] && more[1..] == pre[2..] + [line] + rest;
      ScanSkip(pre[1..], line, rest, tag1, tag2, decode, key, d);
      assert pre[1..][0] == pre[1] && pre[1..][1..] == pre[2..];
    }
  }
}
