/** The slot names of a chassis: `list_slotnames` reads the `racadm
    getslotname` table, `get_slotname` picks one slot from it, and
    `set_slotname` builds the command that renames a slot.

    Every line up to the first one starting with `<` is a header; after it
    each line not starting with `<` is a row split at white space. */
module Slots {
  import opened Strings
  import opened Racadm

  /** The record of one slot. */
  datatype Slot = Slot(slot: string, slotname: string, hostname: string)

  type SlotTable = map<string, Slot>

  /** What one line of the table means. */
  datatype SlotLine =
    | Marker                    // a line starting with `<`
    | Row(fields: seq<string>)  // any other line, split at white space

  /** The loop variables: the slots so far and whether the header is still being skipped. */
  datatype SlotState = SlotState(slots: SlotTable, stripheader: bool)

  function ClassifySlotLine(l: string): SlotLine {
    if StartsWith(l, "<") then Marker else Row(SplitWs(l))
  }

  function ClassifySlotLines(lines: seq<string>): (r: seq<SlotLine>)
    ensures |r| == |lines|
  {
    seq(|lines|, i requires 0 <= i < |lines| => ClassifySlotLine(lines[i]))
  }

  /** The record of a row: the first three fields, `""` for a missing one. */
  function SlotOf(fields: seq<string>): Slot
    requires |fields| >= 1
  {
    Slot(fields[0], if |fields| > 1 then fields[1] else "", if |fields| > 2 then fields[2] else "")
  }

  /** Every row after the first marker has a field: `fields[0]` on an empty
      row raises. */
  predicate Parsable(ks: seq<SlotLine>) {
    forall i :: 0 <= i < |ks| && ks[i].Row? && Marker in ks[..i] ==> |ks[i].fields| >= 1
  }

  /** One iteration of the loop. */
  function Step(st: SlotState, k: SlotLine): SlotState
    requires k.Row? && !st.stripheader ==> |k.fields| >= 1
  {
    match k
    case Marker => st.(stripheader := false)
    case Row(fields) =>
      if st.stripheader then st else st.(slots := st.slots[fields[0] := SlotOf(fields)])
  }

  /** The state after reading `ks`: the header is skipped until a marker comes. */
  function Run(ks: seq<SlotLine>): (r: SlotState)
    requires Parsable(ks)
    ensures r.stripheader <==> Marker !in ks
  {
    if ks == [] then SlotState(map[], true)
    else
      var n := |ks| - 1;
      assert ks == ks[..n] + [ks[n]];
      assert ks[..n][..n] == ks[..n];
      var st := Run(ks[..n]);
      Step(st, ks[n])
  }

  /** The `list_slotnames` loop over the lines of the output. */
  method ParseSlots(lines: seq<string>) returns (slots: SlotTable)
    requires Parsable(ClassifySlotLines(lines))
    ensures slots == Run(ClassifySlotLines(lines)).slots
  {
    ghost var ks := ClassifySlotLines(lines);
    slots := map[];
    var stripheader := true;
    var i := 0;
    while i < |lines|
      invariant 0 <= i <= |lines|
      invariant Parsable(ks[..i])
      invariant SlotState(slots, stripheader) == Run(ks[..i])
    {
      var l := lines[i];
      assert ks[i] == ClassifySlotLine(l);
      RunNext(ks, i);
      slots, stripheader := ReadSlotLine(l, slots, stripheader);
      i := i + 1;
    }
    assert ks[..|lines|] == ks;
  }

  /** One pass of the loop body. */
  method ReadSlotLine(l: string, slots0: SlotTable, stripheader0: bool) returns (slots: SlotTable, stripheader: bool)
    requires ClassifySlotLine(l).Row? && !stripheader0 ==> |ClassifySlotLine(l).fields| >= 1
    ensures SlotState(slots, stripheader) == Step(SlotState(slots0, stripheader0), ClassifySlotLine(l))
  {
    slots, stripheader := slots0, stripheader0;
    if StartsWith(l, "<") {
      stripheader := false;
      return;
    }
    if stripheader {
      return;
    }
    var fields := SplitWs(l);
    var slot := Slot(fields[0], "", "");
    if |fields| > 1 {
      slot := slot.(slotname := fields[1]);
    }
    if |fields| > 2 {
      slot := slot.(hostname := fields[2]);
    }
    slots := slots[fields[0] := slot];
  }

  /** The classified lines of a successful command's cleaned output. */
  function OutputSlotLines(raw: CmdResult): seq<SlotLine> {
    ClassifySlotLines(SplitLines(CleanStdout(raw.stdout)))
  }

  /** The clean-up of `__execute_ret` drops blank lines, so every row of the
      cleaned output has a field and the table is always parsable. */
  lemma CleanedParsable(raw: CmdResult)
    ensures Parsable(OutputSlotLines(raw))
  {
    var lines := SplitLines(CleanStdout(raw.stdout));
    CleanStdoutLines(raw.stdout);
    KeptLinesAreClean(SplitLines(raw.stdout));
    forall i | 0 <= i < |lines| ensures |SplitWs(lines[i])| >= 1 {
      NotNoiseNotBlank(lines[i]);
      SplitWsNonEmpty(lines[i]);
    }
  }

  /** `list_slotnames`: the failed result as it is, or the table read from
      the cleaned `getslotname` output. */
  function ListSlotnames(raw: CmdResult): (r: Reply<SlotTable>)
    ensures raw.retcode != 0 <==> r.Failed?
    ensures r.Failed? ==> r.result == raw
  {
    var cmd := Processed(raw);
    if cmd.retcode != 0 then Failed(cmd)
    else
      CleanedParsable(raw);
      Parsed(Run(OutputSlotLines(raw)).slots)
  }

  /** `list_slotnames` with its command: one `getslotname` query, then the loop. */
  method ListSlotnamesOf(target: Target, run: Runner) returns (r: Reply<SlotTable>)
    ensures r == ListSlotnames(run(0, RetLine("getslotname", target, None)))
  {
    var slotraw := ExecuteRet("getslotname", target, None, run, 0);
    if slotraw.retcode != 0 {
      return Failed(slotraw);
    }
    CleanedParsable(run(0, RetLine("getslotname", target, None)));
    var slots := ParseSlots(SplitLines(slotraw.stdout));
    return Parsed(slots);
  }

  /** `get_slotname`: the record of one slot; a slot the table lacks raises. */
  function GetSlotname(raw: CmdResult, slot: string): (r: Slot)
    requires raw.retcode == 0
    requires ListSlotnames(raw).Parsed? && slot in ListSlotnames(raw).value
    ensures r.slot == slot
  {
    CleanedParsable(raw);
    RunSlotKeys(OutputSlotLines(raw));
    ListSlotnames(raw).value[slot]
  }

  // ---------------------------------------------------------------- properties

  /** Every record is stored under its own `slot` field. */
  lemma {:induction false} RunSlotKeys(ks: seq<SlotLine>)
    requires Parsable(ks)
    ensures forall k :: k in Run(ks).slots ==> Run(ks).slots[k].slot == k
  {
    if ks != [] {
      var n := |ks| - 1;
      assert Parsable(ks[..n]) by {
        forall j | 0 <= j < n ensures ks[..n][..j] == ks[..j] {
        }
      }
      RunSlotKeys(ks[..n]);
    }
  }

  /** Without a marker line the whole output is header: no slots. */
  lemma {:induction false} NoMarkerNoSlots(ks: seq<SlotLine>)
    requires Parsable(ks) && Marker !in ks
    ensures Run(ks).slots == map[]
  {
    if ks != [] {
      var n := |ks| - 1;
      assert ks == ks[..n] + [ks[n]];
      assert Parsable(ks[..n]) by {
        forall j | 0 <= j < n ensures ks[..n][..j] == ks[..j] {
        }
      }
      NoMarkerNoSlots(ks[..n]);
    }
  }

  /** Row `j` is stored under `key`: it comes after a marker and starts with `key`. */
  predicate Stores(ks: seq<SlotLine>, j: int, key: string) {
    0 <= j < |ks| && ks[j].Row? && |ks[j].fields| >= 1 && ks[j].fields[0] == key && Marker in ks[..j]
  }

  lemma StoresInit(ks: seq<SlotLine>, j: int, key: string)
    requires ks != [] && 0 <= j < |ks| - 1
    ensures Stores(ks[..|ks| - 1], j, key) <==> Stores(ks, j, key)
  {
    assert ks[..|ks| - 1][..j] == ks[..j];
  }

  /** Reading line `i` of a parsable output takes the parser from its state
      after `ks[..i]` to its state after `ks[..i + 1]`. */
  lemma RunNext(ks: seq<SlotLine>, i: nat)
    requires Parsable(ks) && i < |ks|
    ensures Parsable(ks[..i]) && Parsable(ks[..i + 1])
    ensures ks[i].Row? && !Run(ks[..i]).stripheader ==> |ks[i].fields| >= 1
    ensures Run(ks[..i + 1]) == Step(Run(ks[..i]), ks[i])
  {
    var pre := ks[..i + 1];
    assert pre[..i] == ks[..i] && pre[i] == ks[i];
    ParsablePrefix(ks, i + 1);
    ParsablePrefix(ks, i);
  }

  lemma ParsablePrefix(ks: seq<SlotLine>, m: nat)
    requires Parsable(ks) && m <= |ks|
    ensures Parsable(ks[..m])
  {
    forall j | 0 <= j < m ensures ks[..m][..j] == ks[..j] {
    }
  }

  lemma ParsableInit(ks: seq<SlotLine>)
    requires ks != [] && Parsable(ks)
    ensures Parsable(ks[..|ks| - 1])
  {
    var n := |ks| - 1;
    forall j | 0 <= j < n ensures ks[..n][..j] == ks[..j] {
    }
  }

  /** Reading one line adds at most the key of a row read after the header,
      and changes no other record. */
  lemma StepSlots(st: SlotState, k: SlotLine, key: string)
    requires k.Row? && !st.stripheader ==> |k.fields| >= 1
    ensures key in Step(st, k).slots <==>
            key in st.slots || (k.Row? && !st.stripheader && k.fields[0] == key)
    ensures key in st.slots && !(k.Row? && !st.stripheader && k.fields[0] == key) ==>
            Step(st, k).slots[key] == st.slots[key]
  {
  }

  /** The table has a key exactly when a row after a marker starts with it. */
  lemma {:induction false} KeysAreStoredRows(ks: seq<SlotLine>, key: string)
    requires Parsable(ks)
    ensures key in Run(ks).slots <==> exists j :: Stores(ks, j, key)
  {
    if ks != [] {
      var n := |ks| - 1;
      var init := ks[..n];
      ParsableInit(ks);
      KeysAreStoredRows(init, key);
      StepSlots(Run(init), ks[n], key);
      if key in Run(init).slots {
        var j :| Stores(init, j, key);
        StoresInit(ks, j, key);
      } else if key in Run(ks).slots {
        assert Stores(ks, n, key);
      }
      if exists j :: Stores(ks, j, key) {
        var j :| Stores(ks, j, key);
        if j < n {
          StoresInit(ks, j, key);
        }
      }
    }
  }

  /** The last row with a key decides its record: the first three fields,
      `""` for a missing one, later fields ignored. */
  lemma {:induction false} LastRowWins(ks: seq<SlotLine>, j: int, key: string)
    requires Parsable(ks) && Stores(ks, j, key)
    requires forall i :: j < i < |ks| ==> !Stores(ks, i, key)
    ensures key in Run(ks).slots
    ensures Run(ks).slots[key] == SlotOf(ks[j].fields)
    ensures Run(ks).slots[key].slotname == if |ks[j].fields| > 1 then ks[j].fields[1] else ""
    ensures Run(ks).slots[key].hostname == if |ks[j].fields| > 2 then ks[j].fields[2] else ""
  {
    var n := |ks| - 1;
    var init := ks[..n];
    ParsableInit(ks);
    StepSlots(Run(init), ks[n], key);
    if j < n {
      StoresInit(ks, j, key);
      forall i | j < i < |init| ensures !Stores(init, i, key) {
        StoresInit(ks, i, key);
      }
      LastRowWins(init, j, key);
      assert !Stores(ks, n, key);
    } else {
      assert ks[..j] == init;
    }
  }

  // ---------------------------------------------------------------- set_slotname

  /** The slot name as sent: at most its first 14 characters. */
  function Truncated(name: string): (r: string)
    ensures |r| <= 14 && r <= name
    ensures |name| <= 14 ==> r == name
    ensures |name| > 14 ==> |r| == 14
  {
    if |name| <= 14 then name else name[..14]
  }

  /** The command `set_slotname` runs. */
  function SlotnameLine(slot: string, name: string): string {
    CmdLine("setslotname -i " + slot + " " + Truncated(name), LocalTarget, None)
  }

  /** The target keywords are handed to the string formatting instead of the
      dispatcher, so the line never carries `-r host -u user -p pw`: it is
      `racadm setslotname -i <slot> <name>` followed by an empty scope switch. */
  lemma SlotnameLineLocal(slot: string, name: string)
    ensures SlotnameLine(slot, name) == "racadm " + "setslotname -i " + slot + " " + Truncated(name) + " "
  {
    CommandLineShape("setslotname -i " + slot + " " + Truncated(name), LocalTarget, ModSwitchCmd(None));
  }

  /** `set_slotname`: true exactly when the local command succeeds, whatever the target. */
  method SetSlotname(slot: string, name: string, target: Target, run: Runner, call: nat) returns (ok: bool)
    ensures ok <==> run(call, SlotnameLine(slot, name)).retcode == 0
  {
    ok := ExecuteCmd("setslotname -i " + slot + " " + Truncated(name), LocalTarget, None, run, call);
  }
}
