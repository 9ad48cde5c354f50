/** `__parse_drac`: the generic parser of `racadm getsysinfo`-style output into
    sections of `key=value` entries, and the `system_info` / `get_chassis_name`
    queries built on it.

    The parser looks at each line on its own to decide what it is (`Classify`)
    and then folds the classified lines into its state (`Step`, `Run`); the
    properties of the fold are stated over classified lines. */
module Drac {
  import opened Strings
  import opened Racadm

  type Section = map<string, string>
  type Sections = map<string, Section>

  /** What one output line means to the parser. */
  datatype LineKind =
    | Header(name: string)             // a line that is not an entry: it (re)opens a section
    | Pair(key: string, value: string) // an entry that splits into exactly one key and one value
    | Malformed                        // an entry holding more than one `=`

  /** The parser's two loop variables: the sections so far and the open section. */
  datatype ParseState = ParseState(drac: Sections, section: string)

  /** A non-blank line holding `=`. */
  predicate IsEntry(l: string) {
    |RStrip(l)| > 0 && '=' in l
  }

  /** The reading of one line: an entry is split at `=` and both pieces are
      stripped; any other line names the section given by the stripped line
      without its last character. */
  function Classify(l: string): LineKind {
    if IsEntry(l) then
      var parts := SplitOn(l, '=');
      if |parts| == 2 then Pair(Strip(parts[0]), Strip(parts[1])) else Malformed
    else Header(DropLast(Strip(l)))
  }

  /** The classified lines, in order. */
  function ClassifyAll(lines: seq<string>): (r: seq<LineKind>)
    ensures |r| == |lines|
  {
    seq(|lines|, i requires 0 <= i < |lines| => Classify(lines[i]))
  }

  /** The open section after reading `ks`: named by the last header, if any. */
  function SectionAfter(ks: seq<LineKind>): string {
    if ks == [] then ""
    else
      var last := ks[|ks| - 1];
      if last.Header? then last.name else SectionAfter(ks[..|ks| - 1])
  }

  /** A malformed entry only ever comes while no section is open: inside a
      section, `dict([[...]])` on more than two pieces raises. */
  predicate Parsable(ks: seq<LineKind>) {
    ks == [] ||
    var n := |ks| - 1;
    Parsable(ks[..n]) && (ks[n].Malformed? ==> SectionAfter(ks[..n]) == "")
  }

  /** One iteration of the parser's loop. */
  function Step(st: ParseState, k: LineKind): ParseState
    requires k.Malformed? ==> st.section !in st.drac
  {
    match k
    case Pair(key, value) =>
      if st.section in st.drac then
        st.(drac := st.drac[st.section := st.drac[st.section][key := value]])
      else st
    case Malformed => st
    case Header(s) =>
      ParseState(if s !in st.drac && s != "" then st.drac[s := map[]] else st.drac, s)
  }

  /** The parser's state after reading `ks`: the open section is the one
      `SectionAfter` names, and it is a key of the result exactly when it is not
      empty; the empty name is never a section. */
  function Run(ks: seq<LineKind>): (r: ParseState)
    requires Parsable(ks)
    ensures r.section == SectionAfter(ks)
    ensures "" !in r.drac
    ensures r.section != "" <==> r.section in r.drac
  {
    if ks == [] then ParseState(map[], "")
    else
      var n := |ks| - 1;
      Step(Run(ks[..n]), ks[n])
  }

  /** `__parse_drac`. */
  method ParseDrac(output: string) returns (drac: Sections)
    requires Parsable(ClassifyAll(SplitLines(output)))
    ensures drac == Run(ClassifyAll(SplitLines(output))).drac
  {
    var lines := SplitLines(output);
    ghost var ks := ClassifyAll(lines);
    drac := map[];
    var section := "";
    var i := 0;
    while i < |lines|
      invariant 0 <= i <= |lines|
      invariant Parsable(ks[..i])
      invariant ParseState(drac, section) == Run(ks[..i])
    {
      var l := lines[i];
      assert ks[i] == Classify(l);
      RunNext(ks, i);
      drac, section := ReadLine(l, drac, section);
      i := i + 1;
    }
    assert ks[..|lines|] == ks;
  }

  /** One pass of the loop body of `__parse_drac`. */
  method ReadLine(l: string, drac0: Sections, section0: string) returns (drac: Sections, section: string)
    requires Classify(l).Malformed? ==> section0 !in drac0
    ensures ParseState(drac, section) == Step(ParseState(drac0, section0), Classify(l))
  {
    drac, section := drac0, section0;
    if |RStrip(l)| > 0 && '=' in l {
      if section in drac {
        var parts := SplitOn(l, '=');
        drac := drac[section := drac[section][Strip(parts[0]) := Strip(parts[1])]];
      }
    } else {
      section := DropLast(Strip(l));
      if section !in drac && section != "" {
        drac := drac[section := map[]];
      }
    }
  }

  /** Reading line `i` of a parsable output takes the parser from its state
      after `ks[..i]` to its state after `ks[..i + 1]`. */
  lemma RunNext(ks: seq<LineKind>, i: nat)
    requires Parsable(ks) && i < |ks|
    ensures Parsable(ks[..i]) && Parsable(ks[..i + 1])
    ensures ks[i].Malformed? ==> Run(ks[..i]).section !in Run(ks[..i]).drac
    ensures Run(ks[..i + 1]) == Step(Run(ks[..i]), ks[i])
  {
    var pre := ks[..i + 1];
    assert pre[..i] == ks[..i] && pre[i] == ks[i];
    ParsablePrefix(ks, i + 1);
  }

  lemma ClassifyAllPrefix(lines: seq<string>, m: nat)
    requires m <= |lines|
    ensures ClassifyAll(lines[..m]) == ClassifyAll(lines)[..m]
  {
  }

  lemma {:induction false} ParsablePrefix(ks: seq<LineKind>, m: nat)
    requires Parsable(ks) && m <= |ks|
    ensures Parsable(ks[..m])
    decreases |ks|
  {
    if m < |ks| {
      var n := |ks| - 1;
      assert ks[..n][..m] == ks[..m];
      ParsablePrefix(ks[..n], m);
    } else {
      assert ks[..m] == ks;
    }
  }

  // ------------------------------------------------------------ line reading

  /** `key=value` with a single `=` is an entry whose key and value are the
      stripped pieces. */
  lemma ClassifyPair(key: string, value: string)
    requires '=' !in key && '=' !in value
    ensures Classify(key + "=" + value) == Pair(Strip(key), Strip(value))
  {
    var l := key + "=" + value;
    assert IsEntry(l) by {
      assert l[|key|] == '=';
      RStripEmptyIff(l);
      assert !IsSpace(l[|key|]);
    }
    assert SplitOn(l, '=') == [key, value] by {
      assert l == key + ['='] + value;
      SplitOnConcat(key, value, '=');
      SplitOnNoSep(key, '=');
      SplitOnNoSep(value, '=');
    }
  }

  lemma ClassifyHeader(l: string)
    requires '=' !in l
    ensures Classify(l) == Header(DropLast(Strip(l)))
  {
  }

  /** A blank line names the empty section: it closes the open one. */
  lemma ClassifyBlank(l: string)
    requires !HasNonSpace(l)
    ensures Classify(l) == Header("")
  {
    RStripEmptyIff(l);
    StripEmptyIff(l);
  }

  // ---------------------------------------------------------------- properties

  /** Reading one more line adds at most the section its header names. */
  lemma StepSections(st: ParseState, k: LineKind, s: string)
    requires k.Malformed? ==> st.section !in st.drac
    ensures s in Step(st, k).drac <==> s in st.drac || (s != "" && k == Header(s))
  {
  }

  /** The sections are exactly the non-empty names of the header lines. */
  lemma {:induction false} SectionsAreHeaders(ks: seq<LineKind>, s: string)
    requires Parsable(ks)
    ensures s in Run(ks).drac <==> s != "" && Header(s) in ks
  {
    if ks != [] {
      var n := |ks| - 1;
      var init := ks[..n];
      SectionsAreHeaders(init, s);
      StepSections(Run(init), ks[n], s);
      assert ks == init + [ks[n]];
    }
  }

  /** Entry `j` is merged into section `s` under key `key`: it is a well-formed
      entry read while `s` was open. */
  predicate Owns(ks: seq<LineKind>, j: int, s: string, key: string) {
    0 <= j < |ks| && ks[j].Pair? && ks[j].key == key && s != "" && SectionAfter(ks[..j]) == s
  }

  lemma OwnsInit(ks: seq<LineKind>, j: int, s: string, key: string)
    requires ks != [] && 0 <= j < |ks| - 1
    ensures Owns(ks[..|ks| - 1], j, s, key) <==> Owns(ks, j, s, key)
  {
    assert ks[..|ks| - 1][..j] == ks[..j];
  }

  /** Reading one more line adds at most its own key to the open section. */
  lemma StepKeys(st: ParseState, k: LineKind, s: string, key: string)
    requires k.Malformed? ==> st.section !in st.drac
    requires s in Step(st, k).drac
    requires st.section != "" <==> st.section in st.drac
    ensures key in Step(st, k).drac[s] <==>
            (s in st.drac && key in st.drac[s]) || (k.Pair? && k.key == key && s != "" && st.section == s)
  {
  }

  /** A key is in a section exactly when some merged entry put it there. */
  lemma {:induction false} KeysAreOwned(ks: seq<LineKind>, s: string, key: string)
    requires Parsable(ks) && s in Run(ks).drac
    ensures key in Run(ks).drac[s] <==> exists j :: Owns(ks, j, s, key)
  {
    var n := |ks| - 1;
    var init := ks[..n];
    var st := Run(init);
    StepKeys(st, ks[n], s, key);
    if s in st.drac {
      KeysAreOwned(init, s, key);
    }
    if key in Run(ks).drac[s] {
      if s in st.drac && key in st.drac[s] {
        var j :| Owns(init, j, s, key);
        OwnsInit(ks, j, s, key);
      } else {
        assert Owns(ks, n, s, key);
      }
    }
    if exists j :: Owns(ks, j, s, key) {
      var j :| Owns(ks, j, s, key);
      if j < n {
        OwnsInit(ks, j, s, key);
        SectionOwnedIsOpen(init, j, s, key);
        KeysAreOwned(init, s, key);
      }
    }
  }

  /** The section of a merged entry is a section of the result. */
  lemma SectionOwnedIsOpen(ks: seq<LineKind>, j: int, s: string, key: string)
    requires Parsable(ks) && Owns(ks, j, s, key)
    ensures s in Run(ks).drac
  {
    SectionAfterIsHeader(ks[..j]);
    assert Header(s) in ks;
    SectionsAreHeaders(ks, s);
  }

  /** A non-empty open section was named by one of the lines read. */
  lemma {:induction false} SectionAfterIsHeader(ks: seq<LineKind>)
    requires SectionAfter(ks) != ""
    ensures Header(SectionAfter(ks)) in ks
  {
    var n := |ks| - 1;
    if !ks[n].Header? {
      SectionAfterIsHeader(ks[..n]);
      assert ks == ks[..n] + [ks[n]];
    }
  }

  /** Reading one more line changes a value only under the key that line sets. */
  lemma StepValue(st: ParseState, k: LineKind, s: string, key: string)
    requires k.Malformed? ==> st.section !in st.drac
    requires s in st.drac && key in st.drac[s]
    requires !(k.Pair? && k.key == key && st.section == s)
    ensures s in Step(st, k).drac && key in Step(st, k).drac[s]
    ensures Step(st, k).drac[s][key] == st.drac[s][key]
  {
  }

  /** Within a section the last merged entry with a key decides its value: a
      later duplicate overwrites, and re-opening a section keeps what it holds. */
  lemma {:induction false} LastEntryWins(ks: seq<LineKind>, j: int, s: string, key: string)
    requires Parsable(ks) && Owns(ks, j, s, key)
    requires forall i :: j < i < |ks| ==> !Owns(ks, i, s, key)
    ensures s in Run(ks).drac && key in Run(ks).drac[s]
    ensures Run(ks).drac[s][key] == ks[j].value
  {
    var n := |ks| - 1;
    var init := ks[..n];
    if j < n {
      OwnsInit(ks, j, s, key);
      forall i | j < i < |init| ensures !Owns(init, i, s, key) {
        OwnsInit(ks, i, s, key);
      }
      LastEntryWins(init, j, s, key);
      assert !Owns(ks, n, s, key);
      StepValue(Run(init), ks[n], s, key);
    } else {
      assert ks[..j] == init;
    }
  }

  /** Every key of a section has a last merged entry, and that entry gives its value. */
  lemma LastOwner(ks: seq<LineKind>, s: string, key: string)
    requires Parsable(ks) && s in Run(ks).drac && key in Run(ks).drac[s]
    ensures exists j :: Owns(ks, j, s, key) && Run(ks).drac[s][key] == ks[j].value
                        && forall i :: j < i < |ks| ==> !Owns(ks, i, s, key)
  {
    KeysAreOwned(ks, s, key);
    var j0 :| Owns(ks, j0, s, key);
    var j := LastOwnerFrom(ks, j0, s, key);
    LastEntryWins(ks, j, s, key);
  }

  /** The last entry merged under `key` into `s`, from `j` on. */
  lemma {:induction false} LastOwnerFrom(ks: seq<LineKind>, j: int, s: string, key: string) returns (last: int)
    requires Owns(ks, j, s, key)
    ensures j <= last && Owns(ks, last, s, key)
    ensures forall i :: last < i < |ks| ==> !Owns(ks, i, s, key)
    decreases |ks| - j
  {
    if i :| j < i < |ks| && Owns(ks, i, s, key) {
      last := LastOwnerFrom(ks, i, s, key);
    } else {
      last := j;
    }
  }

  /** An entry read while no section is open, such as one before the first
      header or one right after a blank line, is dropped. */
  lemma OrphanEntryIgnored(ks: seq<LineKind>, k: LineKind)
    requires Parsable(ks) && !k.Header? && SectionAfter(ks) == ""
    ensures Parsable(ks + [k])
    ensures Run(ks + [k]) == Run(ks)
  {
    assert (ks + [k])[..|ks|] == ks;
  }

  /** Repeating the header of an existing section re-opens it and keeps its entries. */
  lemma ReopenKeeps(ks: seq<LineKind>, s: string)
    requires Parsable(ks) && s in Run(ks).drac
    ensures Parsable(ks + [Header(s)])
    ensures Run(ks + [Header(s)]).drac == Run(ks).drac
    ensures Run(ks + [Header(s)]).section == s
  {
    assert (ks + [Header(s)])[..|ks|] == ks;
  }

  // ------------------------------------------------------------ the queries

  /** The classified lines of a successful command's cleaned output. */
  function OutputKinds(raw: CmdResult): seq<LineKind> {
    ClassifyAll(SplitLines(CleanStdout(raw.stdout)))
  }

  /** `system_info`: the parsed `getsysinfo` output, or the failed result. */
  function SystemInfo(raw: CmdResult): (r: Reply<Sections>)
    requires raw.retcode == 0 ==> Parsable(OutputKinds(raw))
    ensures raw.retcode != 0 <==> r.Failed?
    ensures r.Failed? ==> r.result == raw
    ensures r.Parsed? ==> r.value == Run(OutputKinds(raw)).drac
  {
    var cmd := Processed(raw);
    if cmd.retcode != 0 then Failed(cmd) else Parsed(Run(ClassifyAll(SplitLines(cmd.stdout))).drac)
  }

  /** `system_info`: run `getsysinfo` and parse its cleaned output. */
  method SystemInfoOf(target: Target, scope: Option<string>, run: Runner) returns (r: Reply<Sections>)
    requires var raw := run(0, RetLine("getsysinfo", target, scope));
             raw.retcode == 0 ==> Parsable(OutputKinds(raw))
    ensures r == SystemInfo(run(0, RetLine("getsysinfo", target, scope)))
  {
    var cmd := ExecuteRet("getsysinfo", target, scope, run, 0);
    if cmd.retcode != 0 {
      return Failed(cmd);
    }
    var drac := ParseDrac(cmd.stdout);
    return Parsed(drac);
  }

  const ChassisSection := "Chassis Information"
  const ChassisNameKey := "Chassis Name"
  const ChassisLocationKey := "Chassis Location"

  /** The entry `key` of the `Chassis Information` section. A failed command,
      or output without that entry, raises. The value is that of the last such
      entry read while that section was open. */
  function ChassisInformation(raw: CmdResult, key: string): (r: string)
    requires raw.retcode == 0 && Parsable(OutputKinds(raw))
    requires ChassisSection in Run(OutputKinds(raw)).drac
    requires key in Run(OutputKinds(raw)).drac[ChassisSection]
    ensures var ks := OutputKinds(raw);
            exists j :: Owns(ks, j, ChassisSection, key) && ks[j].value == r
                        && forall i :: j < i < |ks| ==> !Owns(ks, i, ChassisSection, key)
  {
    LastOwner(OutputKinds(raw), ChassisSection, key);
    match SystemInfo(raw)
    case Parsed(drac) => drac[ChassisSection][key]
  }

  /** `get_chassis_name`: the last `Chassis Name` entry of `Chassis Information`. */
  function ChassisName(raw: CmdResult): (r: string)
    requires raw.retcode == 0 && Parsable(OutputKinds(raw))
    requires ChassisSection in Run(OutputKinds(raw)).drac
    requires ChassisNameKey in Run(OutputKinds(raw)).drac[ChassisSection]
    ensures var ks := OutputKinds(raw);
            exists j :: Owns(ks, j, ChassisSection, ChassisNameKey) && ks[j].value == r
                        && forall i :: j < i < |ks| ==> !Owns(ks, i, ChassisSection, ChassisNameKey)
  {
    ChassisInformation(raw, ChassisNameKey)
  }

  /** `get_chassis_location`: the last `Chassis Location` entry of `Chassis Information`. */
  function ChassisLocation(raw: CmdResult): (r: string)
    requires raw.retcode == 0 && Parsable(OutputKinds(raw))
    requires ChassisSection in Run(OutputKinds(raw)).drac
    requires ChassisLocationKey in Run(OutputKinds(raw)).drac[ChassisSection]
    ensures var ks := OutputKinds(raw);
            exists j :: Owns(ks, j, ChassisSection, ChassisLocationKey) && ks[j].value == r
                        && forall i :: j < i < |ks| ==> !Owns(ks, i, ChassisSection, ChassisLocationKey)
  {
    ChassisInformation(raw, ChassisLocationKey)
  }
}
