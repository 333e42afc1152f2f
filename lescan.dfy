/** `process_le_scan` (src/btle_scan.py): the lines printed by `hcitool
    lescan`, each `<addr> <name>` or `<addr> (unknown)`, sorted into a map of
    resolved names and a map of addresses still without one. */
module LeScan {
  import opened Wrappers
  import opened PyStr

  /** The banner line `hcitool lescan` prints first. */
  const Banner := "LE Scan ..."

  /** The name `hcitool` prints for an address it could not resolve. */
  const UnknownName := "(unknown)"

  /** What one line is to the loop. */
  datatype ScanLine =
    | Skipped                           // holds the banner
    | Unsplittable                      // no space: unpacking raises ValueError
    | Unknown(addr: string)             // `<addr> (unknown)`
    | Named(addr: string, name: string) // `<addr> <name>`

  function ClassifyLine(line: string): (r: ScanLine)
    ensures r.Unsplittable? <==> !Contains(line, Banner) && ' ' !in line
    ensures r.Unknown? || r.Named? ==> ' ' !in r.addr
  {
    if Contains(line, Banner) then Skipped
    else
      var parts := Split(line, " ", 1);
      ContainsChar(line, ' ');
      if |parts| != 2 then Unsplittable
      else
        SplitPartsFree(line, " ", 1);
        ContainsChar(parts[0], ' ');
        if parts[1] == UnknownName then Unknown(parts[0]) else Named(parts[0], parts[1])
  }

  /** `resolved` and `unknown`; every value of `unknown` is `""`. */
  datatype Scan = Scan(resolved: map<string, string>, unknown: map<string, string>)

  /** The loop body on one classified line. */
  function StepScan(s: Scan, k: ScanLine): Option<Scan> {
    match k
    case Skipped => Some(s)
    case Unsplittable => None
    case Unknown(a) => Some(s.(unknown := s.unknown[a := ""]))
    case Named(a, n) => Some(Scan(s.resolved[a := n], s.unknown - {a}))
  }

  /** The dictionaries after lines of the given kinds, or `None` once a line
      raised. */
  function ScanKinds(ks: seq<ScanLine>): (r: Option<Scan>)
    decreases |ks|
  {
    if ks == [] then Some(Scan(map[], map[]))
    else
      match ScanKinds(ks[..|ks| - 1])
      case None => None
      case Some(s) => StepScan(s, ks[|ks| - 1])
  }

  function Kinds(lines: seq<string>): (ks: seq<ScanLine>)
    ensures |ks| == |lines| && forall j :: 0 <= j < |lines| ==> ks[j] == ClassifyLine(lines[j])
  {
    seq(|lines|, j requires 0 <= j < |lines| => ClassifyLine(lines[j]))
  }

  function ScanOf(lines: seq<string>): Option<Scan> {
    ScanKinds(Kinds(lines))
  }

  /** `process_le_scan(scanresults)`: the pair of dictionaries, or the
      ValueError of a line without a space. */
  method ProcessLeScan(scanresults: string) returns (r: Outcome<Scan>)
    ensures !r.Diverges?
    ensures r.Returned? <==> ScanOf(SplitLines(scanresults)).Some?
    ensures r.Raised? <==> ScanOf(SplitLines(scanresults)).None?
    ensures r.Returned? ==> r.value == ScanOf(SplitLines(scanresults)).value
    ensures r.Raised? ==> r.error == ValueError
  {
    var lines := SplitLines(scanresults);
    var ks := Kinds(lines);
    var resolved: map<string, string> := map[];
    var unknown: map<string, string> := map[];
    var i := 0;
    while i < |lines|
      invariant i <= |lines|
      invariant ScanKinds(ks[..i]) == Some(Scan(resolved, unknown))
    {
      var line := lines[i];
      assert ks[..i + 1][..i] == ks[..i] && ks[..i + 1][i] == ClassifyLine(line);
      i := i + 1;
      if Contains(line, Banner) {
        continue;
      }
      var parts := Split(line, " ", 1);
      if |parts| != 2 {
        assert ClassifyLine(line) == Unsplittable;
        NoneAfter(ks, i);
        return Raised(ValueError);
      }
      var btAddr, name := parts[0], parts[1];
      ghost var before := Scan(resolved, unknown);
      if name == UnknownName {
        unknown := unknown[btAddr := ""];
        assert ClassifyLine(line) == Unknown(btAddr);
      } else {
        resolved := resolved[btAddr := name];
        if btAddr in unknown {
          unknown := unknown - {btAddr};
        }
        assert unknown == before.unknown - {btAddr};
        assert ClassifyLine(line) == Named(btAddr, name);
      }
    }
    assert ks[..i] == ks;
    return Returned(Scan(resolved, unknown));
  }

  /** Once a line has raised, the whole scan has. */
  lemma {:induction false} NoneAfter(ks: seq<ScanLine>, i: nat)
    requires i <= |ks| && ScanKinds(ks[..i]).None?
    ensures ScanKinds(ks).None?
    decreases |ks| - i
  {
    if i < |ks| {
      assert ks[..i + 1][..i] == ks[..i];
      NoneAfter(ks, i + 1);
    } else {
      assert ks[..i] == ks;
    }
  }

  // ---------------------------------------------------------------------------
  // What the two dictionaries hold

  /** Line `j` names address `a`. */
  predicate NamesAt(ks: seq<ScanLine>, j: int, a: string)
    requires 0 <= j < |ks|
  {
    ks[j].Named? && ks[j].addr == a
  }

  /** The scan raises ValueError exactly when some line has no space and is
      not the banner. */
  lemma {:induction false} ScanFails(ks: seq<ScanLine>)
    ensures ScanKinds(ks).None? <==> exists j :: 0 <= j < |ks| && ks[j].Unsplittable?
    decreases |ks|
  {
    if ks != [] {
      var init := ks[..|ks| - 1];
      ScanFails(init);
      if exists j :: 0 <= j < |ks| && ks[j].Unsplittable? {
        var j :| 0 <= j < |ks| && ks[j].Unsplittable?;
        if j < |init| {
          assert init[j].Unsplittable?;
        }
      }
    }
  }

  /** Every value of `unknown` is the empty string. */
  lemma {:induction false} UnknownValues(ks: seq<ScanLine>)
    requires ScanKinds(ks).Some?
    ensures forall a :: a in ScanKinds(ks).value.unknown ==> ScanKinds(ks).value.unknown[a] == ""
    decreases |ks|
  {
    if ks != [] {
      UnknownValues(ks[..|ks| - 1]);
    }
  }

  /** `resolved` holds exactly the addresses some line names. */
  lemma {:induction false} ResolvedAddresses(ks: seq<ScanLine>, a: string)
    requires ScanKinds(ks).Some?
    ensures a in ScanKinds(ks).value.resolved <==> exists j :: 0 <= j < |ks| && NamesAt(ks, j, a)
    decreases |ks|
  {
    if ks != [] {
      var init := ks[..|ks| - 1];
      var last := |ks| - 1;
      ResolvedAddresses(init, a);
      if NamesAt(ks, last, a) {
        assert a in ScanKinds(ks).value.resolved;
      } else {
        assert a in ScanKinds(ks).value.resolved <==> a in ScanKinds(init).value.resolved;
      }
      if exists j :: 0 <= j < |ks| && NamesAt(ks, j, a) {
        var j :| 0 <= j < |ks| && NamesAt(ks, j, a);
        if j < |init| {
          assert NamesAt(init, j, a);
        }
      }
      if exists j :: 0 <= j < |init| && NamesAt(init, j, a) {
        var j :| 0 <= j < |init| && NamesAt(init, j, a);
        assert NamesAt(ks, j, a);
      }
    }
  }

  /** The name kept for an address is the one on the last line naming it. */
  lemma {:induction false} ResolvedNames(ks: seq<ScanLine>, a: string, j: nat)
    requires ScanKinds(ks).Some? && j < |ks| && NamesAt(ks, j, a)
    requires forall k :: j < k < |ks| ==> !NamesAt(ks, k, a)
    ensures a in ScanKinds(ks).value.resolved && ScanKinds(ks).value.resolved[a] == ks[j].name
    decreases |ks|
  {
    var init := ks[..|ks| - 1];
    var last := |ks| - 1;
    if j < last {
      assert NamesAt(init, j, a) && !NamesAt(ks, last, a);
      forall k | j < k < |init| ensures !NamesAt(init, k, a) {
        assert !NamesAt(ks, k, a);
      }
      ResolvedNames(init, a, j);
    }
  }

  /** `unknown` holds exactly the addresses reported `(unknown)` on some line
      that no later line names: a later `(unknown)` line puts a resolved
      address back, a later name takes it out. */
  lemma {:induction false} UnknownAddresses(ks: seq<ScanLine>, a: string)
    requires ScanKinds(ks).Some?
    ensures a in ScanKinds(ks).value.unknown <==>
      exists j :: 0 <= j < |ks| && ks[j] == Unknown(a) && forall k :: j < k < |ks| ==> !NamesAt(ks, k, a)
    decreases |ks|
  {
    if ks != [] {
      var init := ks[..|ks| - 1];
      var last := |ks| - 1;
      UnknownAddresses(init, a);
      var unk := ScanKinds(ks).value.unknown;
      if ks[last] == Unknown(a) {
        assert a in unk;
      } else if NamesAt(ks, last, a) {
        assert a !in unk;
      } else {
        assert a in unk <==> a in ScanKinds(init).value.unknown;
        if a in unk {
          var j :| 0 <= j < |init| && init[j] == Unknown(a) && forall k :: j < k < |init| ==> !NamesAt(init, k, a);
          assert ks[j] == Unknown(a);
          forall k | j < k < |ks| ensures !NamesAt(ks, k, a) {
            if k < |init| {
              assert !NamesAt(init, k, a);
            }
          }
        }
        if exists j :: 0 <= j < |ks| && ks[j] == Unknown(a) && forall k :: j < k < |ks| ==> !NamesAt(ks, k, a) {
          var j :| 0 <= j < |ks| && ks[j] == Unknown(a) && forall k :: j < k < |ks| ==> !NamesAt(ks, k, a);
          assert j < |init| && init[j] == Unknown(a);
          forall k | j < k < |init| ensures !NamesAt(init, k, a) {
            assert !NamesAt(ks, k, a);
          }
        }
      }
    }
  }

  // ---------------------------------------------------------------------------
  // Lines as `hcitool lescan` prints them

  /** An address followed by a name or `(unknown)` is read as such. */
  lemma ClassifyAddressLine(addr: string, name: string)
    requires ' ' !in addr && !Contains(addr + " " + name, Banner)
    ensures ClassifyLine(addr + " " + name) ==
      if name == UnknownName then Unknown(addr) else Named(addr, name)
  {
    SplitFirst(addr, ' ', name, 1);
    assert Split(name, " ", 0) == [name];
    assert addr + " " + name == addr + [' '] + name;
  }

  /** The kinds of the lines of `sample_output`: the banner, then two
      addresses first reported `(unknown)` and then named, a third left
      unknown and a fourth named at once. */
  lemma SampleKinds(a1: string, n1: string, a2: string, n2: string, a3: string, a4: string, n4: string)
    requires a3 != a4
    ensures ScanKinds([Skipped, Unknown(a1), Named(a1, n1), Unknown(a2), Named(a2, n2), Unknown(a3), Named(a4, n4)]) ==
      Some(Scan(map[a1 := n1, a2 := n2, a4 := n4], map[a3 := ""]))
  {
    var ks := [Skipped, Unknown(a1), Named(a1, n1), Unknown(a2), Named(a2, n2), Unknown(a3), Named(a4, n4)];
    assert ScanKinds(ks[..1]) == Some(Scan(map[], map[])) by {
      assert ks[..1][..0] == [];
    }
    assert ScanKinds(ks[..2]) == Some(Scan(map[], map[a1 := ""])) by {
      assert ks[..2][..1] == ks[..1];
    }
    assert ScanKinds(ks[..3]) == Some(Scan(map[a1 := n1], map[])) by {
      assert ks[..3][..2] == ks[..2];
      assert map[a1 := ""] - {a1} == map[];
    }
    assert ScanKinds(ks[..4]) == Some(Scan(map[a1 := n1], map[a2 := ""])) by {
      assert ks[..4][..3] == ks[..3];
    }
    assert ScanKinds(ks[..5]) == Some(Scan(map[a1 := n1, a2 := n2], map[])) by {
      assert ks[..5][..4] == ks[..4];
      assert map[a2 := ""] - {a2} == map[];
    }
    assert ScanKinds(ks[..6]) == Some(Scan(map[a1 := n1, a2 := n2], map[a3 := ""])) by {
      assert ks[..6][..5] == ks[..5];
    }
    assert ScanKinds(ks) == Some(Scan(map[a1 := n1, a2 := n2, a4 := n4], map[a3 := ""])) by {
      assert ks[..6] == ks[..|ks| - 1];
      assert map[a3 := ""] - {a4} == map[a3 := ""];
    }
  }

  /** The scan of seven lines read as those of `sample_output`. */
  lemma SampleScan(l0: string, l1: string, l2: string, l3: string, l4: string, l5: string, l6: string,
                    a1: string, n1: string, a2: string, n2: string, a3: string, a4: string, n4: string)
    requires a3 != a4
    requires ClassifyLine(l0) == Skipped
    requires ClassifyLine(l1) == Unknown(a1) && ClassifyLine(l2) == Named(a1, n1)
    requires ClassifyLine(l3) == Unknown(a2) && ClassifyLine(l4) == Named(a2, n2)
    requires ClassifyLine(l5) == Unknown(a3) && ClassifyLine(l6) == Named(a4, n4)
    ensures ScanOf([l0, l1, l2, l3, l4, l5, l6]) == Some(Scan(map[a1 := n1, a2 := n2, a4 := n4], map[a3 := ""]))
  {
    var lines := [l0, l1, l2, l3, l4, l5, l6];
    assert Kinds(lines) == [Skipped, Unknown(a1), Named(a1, n1), Unknown(a2), Named(a2, n2), Unknown(a3), Named(a4, n4)];
    SampleKinds(a1, n1, a2, n2, a3, a4, n4);
  }

  /** An address line of `hcitool lescan` output, not the banner. */
  lemma AddressLineKind(addr: string, name: string)
    requires ' ' !in addr && '.' !in addr + name
    ensures ClassifyLine(addr + " " + name) == if name == UnknownName then Unknown(addr) else Named(addr, name)
  {
    var line := addr + " " + name;
    assert '.' !in line by {
      assert forall i :: 0 <= i < |line| ==> line[i] in addr + name || line[i] == ' ';
    }
    NotContainsByChar(line, Banner, '.');
    ClassifyAddressLine(addr, name);
  }

  lemma BannerKind()
    ensures ClassifyLine(Banner) == Skipped
  {
    ContainsAt(Banner, Banner, 0);
  }

  /** `process_le_scan(sample_output)`: three resolved addresses and one
      without a name. */
  lemma SampleOutput(a1: string, n1: string, a2: string, n2: string, a3: string, a4: string, n4: string)
    requires ' ' !in a1 && ' ' !in a2 && ' ' !in a3 && ' ' !in a4 && a3 != a4
    requires n1 != UnknownName && n2 != UnknownName && n4 != UnknownName
    requires '.' !in a1 + n1 && '.' !in a2 + n2 && '.' !in a3 && '.' !in a4 + n4
    ensures ScanOf([Banner, a1 + " " + UnknownName, a1 + " " + n1, a2 + " " + UnknownName, a2 + " " + n2,
                    a3 + " " + UnknownName, a4 + " " + n4]) ==
      Some(Scan(map[a1 := n1, a2 := n2, a4 := n4], map[a3 := ""]))
  {
    BannerKind();
    AddressLineKind(a1, UnknownName);
    AddressLineKind(a1, n1);
    AddressLineKind(a2, UnknownName);
    AddressLineKind(a2, n2);
    AddressLineKind(a3, UnknownName);
    AddressLineKind(a4, n4);
    SampleScan(Banner, a1 + " " + UnknownName, a1 + " " + n1, a2 + " " + UnknownName, a2 + " " + n2,
               a3 + " " + UnknownName, a4 + " " + n4, a1, n1, a2, n2, a3, a4, n4);
  }
}
