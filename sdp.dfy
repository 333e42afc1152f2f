/** `parse_inq` (src/btcommon.py): the records printed by `sdptool browse`,
    stanzas of `Tag: value` lines separated by empty lines, turned into a
    list of service dictionaries. */
module SdpRecords {
  import opened Wrappers
  import opened PyStr

  /** One service dictionary. `description`, `service-classes` and
      `profiles` are always `None` and are not carried. `name`, `port` and
      `protocol` are absent until a line sets them. */
  datatype Service = Service(host: string, provider: Option<string>, serviceId: Option<string>,
                             name: Option<string>, port: Option<int>, protocol: Option<string>)

  /** The dictionary a new record starts from. */
  function Fresh(target: string): Service {
    Service(target, None, None, None, None, None)
  }

  /** `device.get("name", False)` is truthy: a non-empty name is set. */
  predicate HasName(d: Service) {
    d.name.Some? && d.name.value != ""
  }

  const NameTag := "Service Name"
  const ProviderTag := "Service Provider"
  const UuidTag := "UUID 128"
  const ChannelTag := "Channel"
  const PsmTag := "PSM"

  predicate IsTag(t: string) {
    t == NameTag || t == ProviderTag || t == UuidTag || t == ChannelTag || t == PsmTag
  }

  /** What one line of the inquiry is to the loop body. */
  datatype InqLine =
    | Blank                                   // the empty line between records
    | NameLine(name: string)
    | ProviderLine(provider: string)
    | ServiceIdLine(serviceId: string)
    | PortLine(port: int, protocol: string)   // `Channel` (RFCOMM) or `PSM` (L2CAP)
    | MissingValue                            // a tag without `: `: IndexError
    | BadPort                                 // a port `int()` rejects: ValueError
    | Other                                   // any other line: ignored

  function ClassifyInq(line: string): (r: InqLine)
    ensures r == Blank <==> line == ""
  {
    if line == "" then Blank else ClassifyParts(Split(Strip(line), ": ", -1))
  }

  /** A non-empty line by the parts of `line.strip().split(": ")`. */
  function ClassifyParts(parts: seq<string>): (r: InqLine)
    requires parts != []
    ensures r != Blank
  {
    var tag := parts[0];
    if !IsTag(tag) then Other
    else if |parts| < 2 then MissingValue
    else if tag == NameTag then NameLine(parts[1])
    else if tag == ProviderTag then ProviderLine(parts[1])
    else if tag == UuidTag then ServiceIdLine(parts[1])
    else
      match ParseInt(parts[1], 10)
      case None => BadPort
      case Some(p) => PortLine(p, if tag == ChannelTag then "RFCOMM" else "L2CAP")
  }

  /** The loop's variables: `services`, `device` and `append`. */
  datatype Inq = Inq(services: seq<Service>, device: Service, append: bool)

  function Start(target: string): Inq {
    Inq([], Fresh(target), false)
  }

  /** The start of each line: an armed flag and a named record append the
      record and start a new one; without a name the flag stays armed. */
  function Flush(st: Inq, target: string): (r: Inq)
  {
    if st.append && HasName(st.device) then Inq(st.services + [st.device], Fresh(target), false)
    else st
  }

  /** What a non-empty line does to the record being filled. */
  function Fill(d: Service, k: InqLine): Outcome<Service> {
    match k
    case Blank => Returned(d)
    case NameLine(v) => Returned(d.(name := Some(v)))
    case ProviderLine(v) => Returned(d.(provider := Some(v)))
    case ServiceIdLine(v) => Returned(d.(serviceId := Some(v)))
    case PortLine(p, proto) => Returned(d.(port := Some(p), protocol := Some(proto)))
    case MissingValue => Raised(IndexError)
    case BadPort => Raised(ValueError)
    case Other => Returned(d)
  }

  /** One line of the loop. */
  function StepInq(st: Inq, k: InqLine, target: string): Outcome<Inq> {
    var s := Flush(st, target);
    if k.Blank? then Returned(s.(append := true))
    else
      match Fill(s.device, k)
      case Returned(d) => Returned(s.(device := d))
      case Raised(e) => Raised(e)
      case Diverges => Diverges
  }

  function Run(st: Inq, ks: seq<InqLine>, target: string): (r: Outcome<Inq>)
    ensures !r.Diverges?
    decreases |ks|
  {
    if ks == [] then Returned(st)
    else
      match StepInq(st, ks[0], target)
      case Returned(s) => Run(s, ks[1..], target)
      case Raised(e) => Raised(e)
      case Diverges => Diverges
  }

  function Kinds(lines: seq<string>): (ks: seq<InqLine>)
    ensures |ks| == |lines| && forall j :: 0 <= j < |lines| ==> ks[j] == ClassifyInq(lines[j])
  {
    seq(|lines|, j requires 0 <= j < |lines| => ClassifyInq(lines[j]))
  }

  /** What `parse_inq(inq, target)` returns or raises. The record being
      filled when the text ends is never appended. */
  function ParseInqOf(inq: string, target: string): Outcome<seq<Service>> {
    match Run(Start(target), Kinds(Split(inq, "\n", -1)), target)
    case Returned(st) => Returned(st.services)
    case Raised(e) => Raised(e)
    case Diverges => Diverges
  }

  /** `parse_inq(inq, target)` for a `str` inquiry. */
  method ParseInq(inq: string, target: string) returns (r: Outcome<seq<Service>>)
    ensures r == ParseInqOf(inq, target)
  {
    var lines := Split(inq, "\n", -1);
    ghost var ks := Kinds(lines);
    var services: seq<Service> := [];
    var device := Fresh(target);
    var append := false;
    var i := 0;
    assert ks[0..] == ks;
    while i < |lines|
      invariant i <= |lines|
      invariant Run(Inq(services, device, append), ks[i..], target) == Run(Start(target), ks, target)
    {
      assert ks[i..][0] == ClassifyInq(lines[i]) && ks[i..][1..] == ks[i + 1..];
      var step := ReadInqLine(services, device, append, lines[i], target);
      if step.Raised? {
        return Raised(step.error);
      }
      services, device, append := step.value.services, step.value.device, step.value.append;
      i := i + 1;
    }
    assert ks[i..] == [];
    return Returned(services);
  }

  /** The body of `parse_inq`'s loop for one line. */
  method ReadInqLine(services: seq<Service>, device: Service, append: bool, line: string, target: string)
    returns (r: Outcome<Inq>)
    ensures r == StepInq(Inq(services, device, append), ClassifyInq(line), target)
  {
    ghost var flushed := Flush(Inq(services, device, append), target);
    var services, device, append := services, device, append;
    if append {
      if HasName(device) {
        services := services + [device];
        device := Fresh(target);
        append := false;
      }
    }
    assert Inq(services, device, append) == flushed;
    if line == "" {
      append := true;
    } else {
      var stripped := Strip(line);
      var parts := Split(stripped, ": ", -1);
      var filled := ReadTagLine(device, parts);
      if filled.Raised? {
        return Raised(filled.error);
      }
      device := filled.value;
    }
    return Returned(Inq(services, device, append));
  }

  /** The tag dispatch of the loop body for a non-empty line. */
  method ReadTagLine(device: Service, parts: seq<string>) returns (r: Outcome<Service>)
    requires parts != []
    ensures r == Fill(device, ClassifyParts(parts))
  {
    var device := device;
    if parts[0] == NameTag {
      if |parts| < 2 { return Raised(IndexError); }
      device := device.(name := Some(parts[1]));
    } else if parts[0] == ProviderTag {
      if |parts| < 2 { return Raised(IndexError); }
      device := device.(provider := Some(parts[1]));
    } else if parts[0] == UuidTag {
      if |parts| < 2 { return Raised(IndexError); }
      device := device.(serviceId := Some(parts[1]));
    } else if parts[0] == ChannelTag {
      if |parts| < 2 { return Raised(IndexError); }
      var port := ParseInt(parts[1], 10);
      if port.None? { return Raised(ValueError); }
      device := device.(port := Some(port.value), protocol := Some("RFCOMM"));
    } else if parts[0] == PsmTag {
      if |parts| < 2 { return Raised(IndexError); }
      var port := ParseInt(parts[1], 10);
      if port.None? { return Raised(ValueError); }
      device := device.(port := Some(port.value), protocol := Some("L2CAP"));
    }
    return Returned(device);
  }

  // ---------------------------------------------------------------------------
  // Properties

  /** Every record appended has a non-empty name and the target as host. */
  predicate GoodInq(st: Inq, target: string) {
    st.device.host == target &&
    forall j :: 0 <= j < |st.services| ==> HasName(st.services[j]) && st.services[j].host == target
  }

  lemma StepGood(st: Inq, k: InqLine, target: string)
    requires GoodInq(st, target) && StepInq(st, k, target).Returned?
    ensures GoodInq(StepInq(st, k, target).value, target)
  {
    var s := Flush(st, target);
    assert GoodInq(s, target) by {
      if st.append && HasName(st.device) {
        assert forall j :: 0 <= j < |st.services| ==> s.services[j] == st.services[j];
      }
    }
  }

  lemma {:induction false} RunGood(st: Inq, ks: seq<InqLine>, target: string)
    requires GoodInq(st, target)
    ensures Run(st, ks, target).Returned? ==> GoodInq(Run(st, ks, target).value, target)
    decreases |ks|
  {
    if ks != [] && StepInq(st, ks[0], target).Returned? {
      StepGood(st, ks[0], target);
      RunGood(StepInq(st, ks[0], target).value, ks[1..], target);
    }
  }

  /** Every service returned has a non-empty name and the target as host. */
  lemma ParseInqGood(inq: string, target: string)
    ensures var r := ParseInqOf(inq, target);
      r.Returned? ==> forall j :: 0 <= j < |r.value| ==> HasName(r.value[j]) && r.value[j].host == target
  {
    RunGood(Start(target), Kinds(Split(inq, "\n", -1)), target);
  }

  /** The number of empty lines. */
  function Blanks(ks: seq<InqLine>): nat {
    if ks == [] then 0 else (if ks[0] == Blank then 1 else 0) + Blanks(ks[1..])
  }

  function Armed(st: Inq): nat {
    if st.append then 1 else 0
  }

  /** Each record appended uses up the flag an empty line armed: records
      plus the armed flag never outnumber the empty lines. */
  lemma {:induction false} RunCount(st: Inq, ks: seq<InqLine>, target: string)
    ensures var r := Run(st, ks, target);
      r.Returned? ==> |r.value.services| + Armed(r.value) <= |st.services| + Armed(st) + Blanks(ks)
    decreases |ks|
  {
    if ks != [] && StepInq(st, ks[0], target).Returned? {
      RunCount(StepInq(st, ks[0], target).value, ks[1..], target);
    }
  }

  /** Records are only ever appended: the list before is a prefix of the
      list after. */
  lemma {:induction false} RunExtends(st: Inq, ks: seq<InqLine>, target: string)
    ensures var r := Run(st, ks, target);
      r.Returned? ==> st.services <= r.value.services
    decreases |ks|
  {
    if ks != [] && StepInq(st, ks[0], target).Returned? {
      RunExtends(StepInq(st, ks[0], target).value, ks[1..], target);
    }
  }

  /** The call raises exactly when some line is a tag without a value or a
      port that is not a number, and then raises that line's exception. */
  lemma {:induction false} RunRaises(st: Inq, ks: seq<InqLine>, target: string)
    ensures var r := Run(st, ks, target);
      (r.Raised? <==> exists j :: 0 <= j < |ks| && (ks[j] == MissingValue || ks[j] == BadPort)) &&
      (r.Raised? ==> exists j :: 0 <= j < |ks| && ((ks[j] == MissingValue && r.error == IndexError) ||
                                                   (ks[j] == BadPort && r.error == ValueError)))
    decreases |ks|
  {
    if ks != [] {
      if StepInq(st, ks[0], target).Returned? {
        RunRaises(StepInq(st, ks[0], target).value, ks[1..], target);
        if exists j :: 0 <= j < |ks| && (ks[j] == MissingValue || ks[j] == BadPort) {
          var j :| 0 <= j < |ks| && (ks[j] == MissingValue || ks[j] == BadPort);
          assert j > 0 && ks[1..][j - 1] == ks[j];
        }
        if Run(st, ks, target).Raised? {
          var j :| 0 <= j < |ks[1..]| && ((ks[1..][j] == MissingValue && Run(st, ks, target).error == IndexError) ||
                                          (ks[1..][j] == BadPort && Run(st, ks, target).error == ValueError));
          assert ks[j + 1] == ks[1..][j];
        }
      }
    }
  }

  /** Without an empty line nothing is ever appended. */
  lemma NoBlankNoServices(inq: string, target: string)
    requires "" !in Split(inq, "\n", -1)
    ensures var r := ParseInqOf(inq, target); r.Returned? ==> r.value == []
  {
    var lines := Split(inq, "\n", -1);
    var ks := Kinds(lines);
    NoBlanks(lines);
    RunCount(Start(target), ks, target);
  }

  lemma {:induction false} NoBlanks(lines: seq<string>)
    requires "" !in lines
    ensures Blanks(Kinds(lines)) == 0
    decreases |lines|
  {
    if lines != [] {
      assert Kinds(lines)[1..] == Kinds(lines[1..]);
      NoBlanks(lines[1..]);
    }
  }

  /** `tag: value` splits on `": "` into the tag and the value when neither
      holds a colon. */
  lemma SplitTagged(tag: string, v: string)
    requires ':' !in tag && ':' !in v
    ensures Split(tag + ": " + v, ": ", -1) == [tag, v]
  {
    var s := tag + ": " + v;
    assert At(s, ": ", |tag|);
    forall j | 0 <= j < |tag| ensures !At(s, ": ", j) {
      assert s[j] == tag[j];
    }
    var i := IndexOf(s, ": ").value;
    assert i == |tag|;
    assert s[..i] == tag && s[i + 2..] == v;
    NotContainsByChar(v, ": ", ':');
    assert Split(v, ": ", -2) == [v];
  }

  /** How the loop body reads a `tag: value` line of one of its five tags. */
  lemma ClassifyTagLine(tag: string, v: string)
    requires IsTag(tag) && ':' !in v && v != [] && !IsSpace(v[|v| - 1])
    ensures var k := ClassifyInq(tag + ": " + v);
      (tag == NameTag ==> k == NameLine(v)) &&
      (tag == ProviderTag ==> k == ProviderLine(v)) &&
      (tag == UuidTag ==> k == ServiceIdLine(v)) &&
      (tag == ChannelTag ==> k == if ParseInt(v, 10).Some? then PortLine(ParseInt(v, 10).value, "RFCOMM") else BadPort) &&
      (tag == PsmTag ==> k == if ParseInt(v, 10).Some? then PortLine(ParseInt(v, 10).value, "L2CAP") else BadPort)
  {
    TagShape(tag);
    TagLineParts(tag, v);
    assert ClassifyInq(tag + ": " + v) == ClassifyParts([tag, v]);
  }

  /** Each tag is one word group without a colon or leading space. */
  lemma TagShape(tag: string)
    requires IsTag(tag)
    ensures ':' !in tag && tag != [] && !IsSpace(tag[0])
  {
    if tag == NameTag || tag == ProviderTag {
      assert tag[0] == 'S';
    } else if tag == UuidTag {
      assert tag[0] == 'U';
    } else if tag == ChannelTag {
      assert tag[0] == 'C';
    } else {
      assert tag[0] == 'P';
    }
  }

  lemma TagLineParts(tag: string, v: string)
    requires ':' !in tag && tag != [] && !IsSpace(tag[0])
    requires ':' !in v && v != [] && !IsSpace(v[|v| - 1])
    ensures Split(Strip(tag + ": " + v), ": ", -1) == [tag, v]
  {
    var line := tag + ": " + v;
    assert line[0] == tag[0] && line[|line| - 1] == v[|v| - 1];
    StripOfPadded("", line, "");
    assert "" + line + "" == line;
    SplitTagged(tag, v);
  }

  /** Two stanzas, the second one closed by a final empty line: the first
      record is appended when the line after its empty line is read, the
      second never is, because no line follows its empty line. */
  lemma TwoStanzas(target: string, n1: string, p1: string, port: int, n2: string)
    requires n1 != ""
    ensures Run(Start(target), [NameLine(n1), ProviderLine(p1), PortLine(port, "RFCOMM"), Blank, NameLine(n2), Blank], target) ==
      Returned(Inq([Service(target, Some(p1), None, Some(n1), Some(port), Some("RFCOMM"))],
                   Fresh(target).(name := Some(n2)), true))
  {
    var d1 := Service(target, Some(p1), None, Some(n1), Some(port), Some("RFCOMM"));
    var d2 := Fresh(target).(name := Some(n2));
    var s1 := Inq([], Fresh(target).(name := Some(n1)), false);
    var s2 := Inq([], s1.device.(provider := Some(p1)), false);
    var s3 := Inq([], d1, false);
    var s4 := Inq([], d1, true);
    var s5 := Inq([d1], d2, false);
    var s6 := Inq([d1], d2, true);
    RunCons(s5, Blank, [], target, s6);
    assert Flush(s4, target) == Inq([d1], Fresh(target), false) by {
      assert [] + [d1] == [d1];
    }
    RunCons(s4, NameLine(n2), [Blank], target, s5);
    RunCons(s3, Blank, [NameLine(n2), Blank], target, s4);
    RunCons(s2, PortLine(port, "RFCOMM"), [Blank, NameLine(n2), Blank], target, s3);
    RunCons(s1, ProviderLine(p1), [PortLine(port, "RFCOMM"), Blank, NameLine(n2), Blank], target, s2);
    RunCons(Start(target), NameLine(n1), [ProviderLine(p1), PortLine(port, "RFCOMM"), Blank, NameLine(n2), Blank], target, s1);
  }

  lemma RunCons(st: Inq, k: InqLine, rest: seq<InqLine>, target: string, next: Inq)
    requires StepInq(st, k, target) == Returned(next)
    ensures Run(st, [k] + rest, target) == Run(next, rest, target)
  {
    assert ([k] + rest)[1..] == rest;
  }
}
