/** `inventory`: the `racadm getversion` report of a chassis, read into one
    table per kind of unit (servers, switches, CMCs, chassis infrastructure).

    A tag line opens a block; every other non-empty line is a row of that
    block, split at runs of two or more spaces and zipped with the block's
    field names. As in the other parsers, each line is classified on its own
    (`ClassifyRow`) and the classified lines are folded (`Step`, `Run`). */
module Inventory {
  import opened Strings
  import opened Racadm

  /** The four kinds of unit the report lists. */
  datatype Block = Server | Switch | Cmc | Chassis

  type Record = map<string, string>
  type Table = map<string, Record>

  /** The result: one table per block, keyed by the first field of each row. */
  datatype Inventory = Inventory(server: Table, switch: Table, cmc: Table, chassis: Table)

  const EmptyInventory := Inventory(map[], map[], map[], map[])

  /** What one line of the report means. */
  datatype RowKind =
    | Tag(block: Block)          // `<Server>`, `<Switch>`, `<CMC>` or `<Chassis Infrastructure>`
    | Blank                      // the empty line
    | Row(fields: seq<string>)   // anything else, split into its fields

  /** The parser's state: the tables so far and the open block, if any. */
  datatype InvState = InvState(inv: Inventory, open: Option<Block>)

  /** The field names of each block, in column order. */
  function FieldNames(b: Block): (r: seq<string>)
    ensures |r| >= 3 && r[0] == "name"
  {
    match b
    case Server => ["name", "idrac_version", "blade_type", "gen", "updateable"]
    case Switch => ["name", "model_name", "hw_version", "fw_version"]
    case Cmc => ["name", "cmc_version", "updateable"]
    case Chassis => ["name", "fw_version", "fqdd"]
  }

  /** The reading of one line; the tags are tried in this order. */
  function ClassifyRow(l: string): (r: RowKind)
    ensures r.Row? ==> |r.fields| >= 1
  {
    if StartsWith(l, "<Server>") then Tag(Server)
    else if StartsWith(l, "<Switch>") then Tag(Switch)
    else if StartsWith(l, "<CMC>") then Tag(Cmc)
    else if StartsWith(l, "<Chassis Infrastructure>") then Tag(Chassis)
    else if |l| < 1 then Blank
    else Row(SplitRuns(Strip(l)))
  }

  function ClassifyRows(lines: seq<string>): (r: seq<RowKind>)
    ensures |r| == |lines|
  {
    seq(|lines|, i requires 0 <= i < |lines| => ClassifyRow(lines[i]))
  }

  /** The record of the first `n` columns: each name with the value in the
      same column, a later column overriding an earlier one of the same name. */
  function ZipPrefix(names: seq<string>, values: seq<string>, n: nat): Record
    requires n <= |names| && n <= |values|
  {
    if n == 0 then map[] else ZipPrefix(names, values, n - 1)[names[n - 1] := values[n - 1]]
  }

  /** `dict(map(mapit, names, values))`: the columns both lists have. */
  function Zip(names: seq<string>, values: seq<string>): Record {
    ZipPrefix(names, values, if |names| < |values| then |names| else |values|)
  }

  /** The table of block `b`. */
  function TableOf(inv: Inventory, b: Block): Table {
    match b
    case Server => inv.server
    case Switch => inv.switch
    case Cmc => inv.cmc
    case Chassis => inv.chassis
  }

  /** `inv` with the table of block `b` replaced. */
  function WithTable(inv: Inventory, b: Block, t: Table): (r: Inventory)
    ensures TableOf(r, b) == t
    ensures forall c :: c != b ==> TableOf(r, c) == TableOf(inv, c)
  {
    match b
    case Server => inv.(server := t)
    case Switch => inv.(switch := t)
    case Cmc => inv.(cmc := t)
    case Chassis => inv.(chassis := t)
  }

  /** One iteration of the loop: a tag switches the open block, a row is
      stored in the open block under its first field, and a row read while no
      block is open is dropped. */
  function Step(st: InvState, k: RowKind): InvState
    requires k.Row? ==> |k.fields| >= 1
  {
    match k
    case Tag(b) => st.(open := Some(b))
    case Blank => st
    case Row(fields) =>
      if st.open.None? then st
      else
        var b := st.open.value;
        var t := TableOf(st.inv, b)[fields[0] := Zip(FieldNames(b), fields)];
        st.(inv := WithTable(st.inv, b, t))
  }

  predicate WellFormed(ks: seq<RowKind>) {
    forall i :: 0 <= i < |ks| && ks[i].Row? ==> |ks[i].fields| >= 1
  }

  function Run(ks: seq<RowKind>): InvState
    requires WellFormed(ks)
  {
    if ks == [] then InvState(EmptyInventory, None)
    else
      var n := |ks| - 1;
      Step(Run(ks[..n]), ks[n])
  }

  /** The block open after reading `ks`: the one named by the last tag. */
  function OpenAfter(ks: seq<RowKind>): Option<Block> {
    if ks == [] then None
    else if ks[|ks| - 1].Tag? then Some(ks[|ks| - 1].block)
    else OpenAfter(ks[..|ks| - 1])
  }

  lemma ClassifyRowsWellFormed(lines: seq<string>)
    ensures WellFormed(ClassifyRows(lines))
  {
  }

  /** The four flags of the source: exactly the open block's is set. */
  predicate FlagsMatch(open: Option<Block>, inServer: bool, inSwitch: bool, inCmc: bool, inChassis: bool) {
    inServer == (open == Some(Server)) && inSwitch == (open == Some(Switch))
    && inCmc == (open == Some(Cmc)) && inChassis == (open == Some(Chassis))
  }

  /** The command's outcome: the failed result, or the tables read from its
      cleaned output. */
  function InventoryOf(raw: CmdResult): (r: Reply<Inventory>)
    ensures raw.retcode != 0 <==> r.Failed?
    ensures r.Failed? ==> r.result == raw
  {
    var cmd := Processed(raw);
    if cmd.retcode != 0 then Failed(cmd)
    else
      var ks := ClassifyRows(SplitLines(cmd.stdout));
      ClassifyRowsWellFormed(SplitLines(cmd.stdout));
      Parsed(Run(ks).inv)
  }

  /** `inventory`: one `getversion` command, then the loop over its lines
      with the four block flags. */
  method ReadInventory(target: Target, run: Runner) returns (r: Reply<Inventory>)
    ensures r == InventoryOf(run(0, RetLine("getversion", target, None)))
  {
    var rawinv := ExecuteRet("getversion", target, None, run, 0);
    if rawinv.retcode != 0 {
      return Failed(rawinv);
    }
    var lines := SplitLines(rawinv.stdout);
    ghost var ks := ClassifyRows(lines);
    ClassifyRowsWellFormed(lines);
    var inServer, inSwitch, inCmc, inChassis := false, false, false, false;
    var inv := EmptyInventory;
    var i := 0;
    while i < |lines|
      invariant 0 <= i <= |lines|
      invariant WellFormed(ks[..i])
      invariant inv == Run(ks[..i]).inv
      invariant FlagsMatch(Run(ks[..i]).open, inServer, inSwitch, inCmc, inChassis)
      invariant Run(ks[..i]).open == OpenOf(inServer, inSwitch, inCmc, inChassis)
    {
      RunNext(ks, i);
      assert InvState(inv, OpenOf(inServer, inSwitch, inCmc, inChassis)) == Run(ks[..i]);
      inv, inServer, inSwitch, inCmc, inChassis := ReadRow(lines[i], inv, inServer, inSwitch, inCmc, inChassis);
      i := i + 1;
    }
    assert ks[..|lines|] == ks;
    return Parsed(inv);
  }

  /** One more line: the run over `ks[..i + 1]` is one `Step` after the run over `ks[..i]`. */
  lemma RunNext(ks: seq<RowKind>, i: nat)
    requires WellFormed(ks) && i < |ks|
    ensures WellFormed(ks[..i]) && WellFormed(ks[..i + 1])
    ensures ks[i].Row? ==> |ks[i].fields| >= 1
    ensures Run(ks[..i + 1]) == Step(Run(ks[..i]), ks[i])
  {
    assert ks[..i + 1][..i] == ks[..i];
    assert ks[..i + 1][i] == ks[i];
  }

  /** The block a set of flags selects (at most one is set). */
  function OpenOf(inServer: bool, inSwitch: bool, inCmc: bool, inChassis: bool): Option<Block> {
    if inServer then Some(Server) else if inSwitch then Some(Switch)
    else if inCmc then Some(Cmc) else if inChassis then Some(Chassis) else None
  }

  /** One pass of the loop body: the tag tests in order, the empty-line test,
      then the row stored in the open block. */
  method ReadRow(l: string, inv0: Inventory, inServer0: bool, inSwitch0: bool, inCmc0: bool, inChassis0: bool)
    returns (inv: Inventory, inServer: bool, inSwitch: bool, inCmc: bool, inChassis: bool)
    requires FlagsMatch(OpenOf(inServer0, inSwitch0, inCmc0, inChassis0), inServer0, inSwitch0, inCmc0, inChassis0)
    ensures FlagsMatch(OpenOf(inServer, inSwitch, inCmc, inChassis), inServer, inSwitch, inCmc, inChassis)
    ensures InvState(inv, OpenOf(inServer, inSwitch, inCmc, inChassis))
            == Step(InvState(inv0, OpenOf(inServer0, inSwitch0, inCmc0, inChassis0)), ClassifyRow(l))
  {
    inv, inServer, inSwitch, inCmc, inChassis := inv0, inServer0, inSwitch0, inCmc0, inChassis0;
    if StartsWith(l, "<Server>") {
      inServer, inSwitch, inCmc, inChassis := true, false, false, false;
      return;
    }
    if StartsWith(l, "<Switch>") {
      inServer, inSwitch, inCmc, inChassis := false, true, false, false;
      return;
    }
    if StartsWith(l, "<CMC>") {
      inServer, inSwitch, inCmc, inChassis := false, false, true, false;
      return;
    }
    if StartsWith(l, "<Chassis Infrastructure>") {
      inServer, inSwitch, inCmc, inChassis := false, false, false, true;
      return;
    }
    if |l| < 1 {
      return;
    }
    var line := SplitRuns(Strip(l));
    inv := StoreRow(inv, line, inServer, inSwitch, inCmc, inChassis);
  }

  /** The four `if in_<block>` statements of the loop body: at most one flag
      is set, and the row goes to that block's table. */
  method StoreRow(inv0: Inventory, line: seq<string>, inServer: bool, inSwitch: bool, inCmc: bool, inChassis: bool)
    returns (inv: Inventory)
    requires |line| >= 1
    requires !(inServer && inSwitch) && !(inServer && inCmc) && !(inServer && inChassis)
    requires !(inSwitch && inCmc) && !(inSwitch && inChassis) && !(inCmc && inChassis)
    ensures var open := OpenOf(inServer, inSwitch, inCmc, inChassis);
            InvState(inv, open) == Step(InvState(inv0, open), Row(line))
  {
    inv := inv0;
    if inServer {
      inv := inv.(server := inv.server[line[0] := Zip(FieldNames(Server), line)]);
    }
    if inSwitch {
      inv := inv.(switch := inv.switch[line[0] := Zip(FieldNames(Switch), line)]);
    }
    if inCmc {
      inv := inv.(cmc := inv.cmc[line[0] := Zip(FieldNames(Cmc), line)]);
    }
    if inChassis {
      inv := inv.(chassis := inv.chassis[line[0] := Zip(FieldNames(Chassis), line)]);
    }
  }

  // ---------------------------------------------------------------- records

  /** The record of `n` columns holds exactly their names, so at most `n` keys. */
  lemma {:induction false} ZipPrefixKeys(names: seq<string>, values: seq<string>, n: nat)
    requires n <= |names| && n <= |values|
    ensures forall k :: k in ZipPrefix(names, values, n) <==> k in names[..n]
    ensures |ZipPrefix(names, values, n)| <= n
  {
    if n > 0 {
      ZipPrefixKeys(names, values, n - 1);
      assert names[..n] == names[..n - 1] + [names[n - 1]];
    }
  }

  /** A name that does not come again takes its own column's value. */
  lemma {:induction false} ZipPrefixValue(names: seq<string>, values: seq<string>, n: nat, i: nat)
    requires n <= |names| && n <= |values|
    requires i < n && names[i] !in names[i + 1..n]
    ensures names[i] in ZipPrefix(names, values, n)
    ensures ZipPrefix(names, values, n)[names[i]] == values[i]
  {
    if i < n - 1 {
      assert names[i + 1..n] == names[i + 1..n - 1] + [names[n - 1]];
      ZipPrefixValue(names, values, n - 1, i);
    }
  }

  /** A row's record has the row's first field under `name`, at most as many
      entries as the block has field names, and only those names. */
  lemma RecordOfRow(b: Block, fields: seq<string>)
    requires |fields| >= 1
    ensures "name" in Zip(FieldNames(b), fields) && Zip(FieldNames(b), fields)["name"] == fields[0]
    ensures forall k :: k in Zip(FieldNames(b), fields) ==> k in FieldNames(b)
    ensures |Zip(FieldNames(b), fields)| <= |FieldNames(b)|
  {
    var names := FieldNames(b);
    var n := if |names| < |fields| then |names| else |fields|;
    ZipPrefixKeys(names, fields, n);
    NameOnlyFirst(b, n);
    ZipPrefixValue(names, fields, n, 0);
    assert names[..n][0] == "name";
    forall k | k in names[..n] ensures k in names {
    }
  }

  /** `name` is only the first field name of a block. */
  lemma NameOnlyFirst(b: Block, n: nat)
    requires 1 <= n <= |FieldNames(b)|
    ensures "name" !in FieldNames(b)[1..n]
  {
    var names := FieldNames(b);
    forall i | 1 <= i < |names| ensures names[i] != "name" {
      assert names[i][0] != 'n' || |names[i]| != 4;
    }
  }

  // ---------------------------------------------------------------- properties

  /** Every record is stored under the value of its `name` field, and holds
      only field names of its block. */
  predicate NamedRecords(inv: Inventory) {
    forall b: Block, key :: key in TableOf(inv, b) ==>
      "name" in TableOf(inv, b)[key] && TableOf(inv, b)[key]["name"] == key
      && forall f :: f in TableOf(inv, b)[key] ==> f in FieldNames(b)
  }

  /** `NamedRecords` holds of every result. */
  lemma {:induction false} RunNamedRecords(ks: seq<RowKind>)
    requires WellFormed(ks)
    ensures NamedRecords(Run(ks).inv)
  {
    if ks != [] {
      var n := |ks| - 1;
      assert WellFormed(ks[..n]);
      RunNamedRecords(ks[..n]);
      var st := Run(ks[..n]);
      if ks[n].Row? && st.open.Some? {
        RecordOfRow(st.open.value, ks[n].fields);
      }
    }
  }

  /** The open block is the one the last tag named. */
  lemma {:induction false} RunOpen(ks: seq<RowKind>)
    requires WellFormed(ks)
    ensures Run(ks).open == OpenAfter(ks)
  {
    if ks != [] {
      var n := |ks| - 1;
      assert WellFormed(ks[..n]);
      RunOpen(ks[..n]);
    }
  }

  /** Row `j` is stored in block `b` under `key`: it was read while `b` was open. */
  predicate Stores(ks: seq<RowKind>, j: int, b: Block, key: string) {
    0 <= j < |ks| && ks[j].Row? && |ks[j].fields| >= 1 && ks[j].fields[0] == key && OpenAfter(ks[..j]) == Some(b)
  }

  lemma StoresInit(ks: seq<RowKind>, j: int, b: Block, key: string)
    requires ks != [] && 0 <= j < |ks| - 1
    ensures Stores(ks[..|ks| - 1], j, b, key) <==> Stores(ks, j, b, key)
  {
    assert ks[..|ks| - 1][..j] == ks[..j];
  }

  /** Reading one line adds to a table at most the first field of a row read
      while that table's block is open, and changes no other record. */
  lemma StepTable(st: InvState, k: RowKind, b: Block, key: string)
    requires k.Row? ==> |k.fields| >= 1
    ensures key in TableOf(Step(st, k).inv, b) <==>
            key in TableOf(st.inv, b) || (k.Row? && st.open == Some(b) && k.fields[0] == key)
    ensures key in TableOf(st.inv, b) && !(k.Row? && st.open == Some(b) && k.fields[0] == key) ==>
            TableOf(Step(st, k).inv, b)[key] == TableOf(st.inv, b)[key]
  {
  }

  /** A block's table has a key exactly when a row with that first field was
      read while the block was open. */
  lemma {:induction false} KeysAreStoredRows(ks: seq<RowKind>, b: Block, key: string)
    requires WellFormed(ks)
    ensures key in TableOf(Run(ks).inv, b) <==> exists j :: Stores(ks, j, b, key)
  {
    if ks != [] {
      var n := |ks| - 1;
      var init := ks[..n];
      assert WellFormed(init);
      KeysAreStoredRows(init, b, key);
      RunOpen(init);
      StepTable(Run(init), ks[n], b, key);
      if key in TableOf(Run(init).inv, b) {
        var j :| Stores(init, j, b, key);
        StoresInit(ks, j, b, key);
      } else if key in TableOf(Run(ks).inv, b) {
        assert Stores(ks, n, b, key);
      }
      if exists j :: Stores(ks, j, b, key) {
        var j :| Stores(ks, j, b, key);
        if j < n {
          StoresInit(ks, j, b, key);
        }
      }
    }
  }

  /** The last row stored under a key decides its record. */
  lemma {:induction false} LastRowWins(ks: seq<RowKind>, j: int, b: Block, key: string)
    requires WellFormed(ks) && Stores(ks, j, b, key)
    requires forall i :: j < i < |ks| ==> !Stores(ks, i, b, key)
    ensures key in TableOf(Run(ks).inv, b)
    ensures TableOf(Run(ks).inv, b)[key] == Zip(FieldNames(b), ks[j].fields)
  {
    var n := |ks| - 1;
    var init := ks[..n];
    assert WellFormed(init);
    RunOpen(init);
    StepTable(Run(init), ks[n], b, key);
    if j < n {
      StoresInit(ks, j, b, key);
      forall i | j < i < |init| ensures !Stores(init, i, b, key) {
        StoresInit(ks, i, b, key);
      }
      LastRowWins(init, j, b, key);
      assert !Stores(ks, n, b, key);
    } else {
      assert ks[..j] == init;
    }
  }

  /** An empty line changes nothing, wherever it stands. */
  lemma EmptyLineIgnored(ks: seq<RowKind>)
    requires WellFormed(ks)
    ensures ClassifyRow("") == Blank
    ensures WellFormed(ks + [ClassifyRow("")])
    ensures Run(ks + [ClassifyRow("")]) == Run(ks)
  {
    assert (ks + [Blank])[..|ks|] == ks;
  }

  /** Rows before the first tag are dropped. */
  lemma {:induction false} UntaggedRowsIgnored(ks: seq<RowKind>)
    requires WellFormed(ks)
    requires forall i :: 0 <= i < |ks| ==> !ks[i].Tag?
    ensures Run(ks) == InvState(EmptyInventory, None)
  {
    if ks != [] {
      var n := |ks| - 1;
      assert WellFormed(ks[..n]);
      UntaggedRowsIgnored(ks[..n]);
    }
  }
}
