/** The command dispatcher of the DRAC module: the `-a` / `-m` scope switch, the
    local and remote `racadm` command lines of `__execute_cmd` and `__execute_ret`,
    and the clean-up that `__execute_ret` applies to a successful command's stdout.
    Running the command is left to an oracle: a `Runner` maps the ordinal of a
    call within one operation and the command line to the result it produced. */
module Racadm {
  import opened Strings

  /** What the host framework's command runner reports for one command line. */
  datatype CmdResult = CmdResult(retcode: int, stdout: string)

  /** What a query operation returns: the failed command's result as it is, or
      the parsed output. */
  datatype Reply<T> = Failed(result: CmdResult) | Parsed(value: T)

  /** The outcome of the n-th command issued by an operation. */
  type Runner = (nat, string) -> CmdResult

  /** The `host`, `admin_username` and `admin_password` keyword arguments. */
  datatype Target = Target(host: Option<string>, adminUsername: Option<string>, adminPassword: Option<string>)

  /** The defaults: run `racadm` on the local machine. */
  const LocalTarget := Target(None, None, None)

  /** Python truthiness of an optional string argument. */
  predicate Given(o: Option<string>) {
    o.Some? && o.value != ""
  }

  /** `'{0}'.format(o)`: `None` is printed as `None`. */
  function Render(o: Option<string>): string {
    if o.None? then "None" else o.value
  }

  // ------------------------------------------------------------ scope switch

  /** The scope switch of `__execute_cmd`: `ALL_<KIND>` selects every unit of a kind. */
  function ModSwitchCmd(scope: Option<string>): string {
    if Given(scope) then
      var m := scope.value;
      if StartsWith(m, "ALL_") then
        assert m[..4][3] == '_';
        "-a " + Lower(m[FirstIndex(m, '_') + 1..])
      else "-m " + m
    else ""
  }

  /** The scope switch of `__execute_ret`: only the exact name `ALL` selects everything. */
  function ModSwitchRet(scope: Option<string>): string {
    if Given(scope) then
      if scope.value == "ALL" then "-a " else "-m " + scope.value
    else ""
  }

  /** `ALL_SERVER` and `ALL_SWITCH` become `-a` followed by the lower-cased kind. */
  lemma ModSwitchCmdAll(m: string)
    requires StartsWith(m, "ALL_")
    ensures ModSwitchCmd(Some(m)) == "-a " + Lower(m[4..])
  {
    assert m[..4] == "ALL_";
    assert m[3] == '_';
    assert m[0] != '_' && m[1] != '_' && m[2] != '_';
    assert FirstIndex(m, '_') == 3;
  }

  /** Any other module name becomes `-m <module>`; a missing or empty one gives no switch. */
  lemma ModSwitchCmdOther(scope: Option<string>)
    requires !Given(scope) || !StartsWith(scope.value, "ALL_")
    ensures Given(scope) ==> ModSwitchCmd(scope) == "-m " + scope.value
    ensures !Given(scope) ==> ModSwitchCmd(scope) == ""
  {
  }

  /** The two dispatchers disagree on the sentinels: each understands only its own. */
  lemma ModSwitchSentinels()
    ensures ModSwitchCmd(Some("ALL_SERVER")) == "-a " + "server"
    ensures ModSwitchRet(Some("ALL_SERVER")) == "-m " + "ALL_SERVER"
    ensures ModSwitchCmd(Some("ALL")) == "-m " + "ALL"
    ensures ModSwitchRet(Some("ALL")) == "-a "
  {
    AllServerCmd();
    ModSwitchCmdOther(Some("ALL"));
  }

  /** `ALL_SERVER` selects every server in `__execute_cmd`. */
  lemma AllServerCmd()
    ensures ModSwitchCmd(Some("ALL_SERVER")) == "-a " + "server"
  {
    var m := "ALL_SERVER";
    assert m[..4] == "ALL_";
    ModSwitchCmdAll(m);
    assert m[4..] == "SERVER";
    LowerServer();
  }

  lemma LowerServer()
    ensures Lower("SERVER") == "server"
  {
    var r := Lower("SERVER");
    assert |r| == 6;
    assert r[0] == 's' && r[1] == 'e' && r[2] == 'r' && r[3] == 'v' && r[4] == 'e' && r[5] == 'r';
  }

  // ------------------------------------------------------------ command line

  /** The `racadm` invocation built by both dispatchers. */
  function CommandLine(command: string, target: Target, modswitch: string): string {
    if !Given(target.host) then
      "racadm " + command + " " + modswitch
    else
      "racadm -r " + target.host.value + " -u " + Render(target.adminUsername)
      + " -p " + Render(target.adminPassword) + " " + command + " " + modswitch
  }

  /** The credentials a remote call puts right after `racadm`. */
  function Credentials(target: Target): string {
    if Given(target.host) then
      "-r " + target.host.value + " -u " + Render(target.adminUsername)
      + " -p " + Render(target.adminPassword) + " "
    else ""
  }

  /** The remote form is the local form with `-r host -u user -p pw` inserted after `racadm`. */
  lemma CommandLineShape(command: string, target: Target, modswitch: string)
    ensures CommandLine(command, target, modswitch)
            == "racadm " + Credentials(target) + command + " " + modswitch
    ensures !Given(target.host) ==>
            CommandLine(command, target, modswitch) == CommandLine(command, LocalTarget, modswitch)
  {
  }

  /** The command line `__execute_cmd` runs. */
  function CmdLine(command: string, target: Target, scope: Option<string>): string {
    CommandLine(command, target, ModSwitchCmd(scope))
  }

  /** The command line `__execute_ret` runs. */
  function RetLine(command: string, target: Target, scope: Option<string>): string {
    CommandLine(command, target, ModSwitchRet(scope))
  }

  /** `__execute_cmd`: true exactly when the command exits with status 0. */
  method ExecuteCmd(command: string, target: Target, scope: Option<string>, run: Runner, call: nat)
    returns (ok: bool)
    ensures ok <==> run(call, CmdLine(command, target, scope)).retcode == 0
  {
    var cmd := run(call, CmdLine(command, target, scope));
    ok := cmd.retcode == 0;
  }

  // ------------------------------------------------------------ command sequences

  /** The position of the first of `steps[i..]` that fails when run as calls
      `base + i`, ..., or `|steps|` when none does. */
  function FirstFailure(run: Runner, base: nat, steps: seq<string>, i: nat): (f: nat)
    requires i <= |steps|
    ensures i <= f <= |steps|
    decreases |steps| - i
  {
    if i == |steps| then i
    else if run(base + i, steps[i]).retcode != 0 then i
    else FirstFailure(run, base, steps, i + 1)
  }

  /** Every step before the first failure succeeds, and the first failure,
      when there is one, fails. */
  lemma {:induction false} FirstFailureSpec(run: Runner, base: nat, steps: seq<string>, i: nat)
    requires i <= |steps|
    ensures var f := FirstFailure(run, base, steps, i);
            (forall k :: i <= k < f ==> run(base + k, steps[k]).retcode == 0)
            && (f < |steps| ==> run(base + f, steps[f]).retcode != 0)
    decreases |steps| - i
  {
    if i < |steps| && run(base + i, steps[i]).retcode == 0 {
      FirstFailureSpec(run, base, steps, i + 1);
    }
  }

  /** The commands issued when `steps[i..]` run as calls `base + i`, ... and
      the sequence stops at the first that fails. */
  function Attempted(run: Runner, base: nat, steps: seq<string>, i: nat): seq<string>
    requires i <= |steps|
    decreases |steps| - i
  {
    if i == |steps| then []
    else if run(base + i, steps[i]).retcode != 0 then [steps[i]]
    else [steps[i]] + Attempted(run, base, steps, i + 1)
  }

  /** The commands attempted are the steps up to and including the first that
      fails, or all of them when none fails: later steps are never issued. */
  lemma {:induction false} AttemptedSpec(run: Runner, base: nat, steps: seq<string>, i: nat)
    requires i <= |steps|
    ensures var f := FirstFailure(run, base, steps, i);
            Attempted(run, base, steps, i) == steps[i..if f < |steps| then f + 1 else |steps|]
    decreases |steps| - i
  {
    if i < |steps| {
      if run(base + i, steps[i]).retcode != 0 {
        SliceCons(steps, i, i + 1);
      } else {
        var f := FirstFailure(run, base, steps, i + 1);
        assert FirstFailure(run, base, steps, i) == f;
        AttemptedSpec(run, base, steps, i + 1);
        SliceCons(steps, i, if f < |steps| then f + 1 else |steps|);
      }
    }
  }

  /** A non-empty slice is its first element followed by the rest. */
  lemma SliceCons<T>(s: seq<T>, i: nat, j: nat)
    requires i < j <= |s|
    ensures s[i..j] == [s[i]] + s[i + 1..j]
  {
  }

  /** Whether every step succeeds. */
  predicate AllSucceed(run: Runner, base: nat, steps: seq<string>) {
    forall k :: 0 <= k < |steps| ==> run(base + k, steps[k]).retcode == 0
  }

  /** Every step succeeds exactly when there is no first failure. */
  lemma AllSucceedSpec(run: Runner, base: nat, steps: seq<string>)
    ensures AllSucceed(run, base, steps) <==> FirstFailure(run, base, steps, 0) == |steps|
  {
    FirstFailureSpec(run, base, steps, 0);
  }

  // ------------------------------------------------------------ stdout filter

  /** A line `__execute_ret` drops from a successful command's output. */
  predicate IsNoise(l: string) {
    StartsWith(l, "Security Alert") || StartsWith(l, "Continuing execution") || |Strip(l)| == 0
  }

  /** The elements of `s` that `drop` does not reject, in their original order. */
  function Filter<T>(s: seq<T>, drop: T -> bool): seq<T> {
    if s == [] then []
    else
      var last := s[|s| - 1];
      Filter(s[..|s| - 1], drop) + (if drop(last) then [] else [last])
  }

  /** The lines that survive the filter of `__execute_ret`. */
  function KeptLines(ls: seq<string>): seq<string> {
    Filter(ls, IsNoise)
  }

  /** The stdout that `__execute_ret` hands back after a successful command. */
  function CleanStdout(stdout: string): string {
    Join(KeptLines(SplitLines(stdout)), "\n")
  }

  /** The result `__execute_ret` returns for the runner's result `raw`. */
  function Processed(raw: CmdResult): CmdResult {
    if raw.retcode != 0 then raw else raw.(stdout := CleanStdout(raw.stdout))
  }

  /** `__execute_ret`: run the command and, when it exits with 0, drop the noise lines. */
  method ExecuteRet(command: string, target: Target, scope: Option<string>, run: Runner, call: nat)
    returns (cmd: CmdResult)
    ensures cmd.retcode == run(call, RetLine(command, target, scope)).retcode
    ensures cmd == Processed(run(call, RetLine(command, target, scope)))
  {
    cmd := run(call, RetLine(command, target, scope));
    if cmd.retcode == 0 {
      var lines := SplitLines(cmd.stdout);
      var fmtlines: seq<string> := [];
      var i := 0;
      while i < |lines|
        invariant 0 <= i <= |lines|
        invariant fmtlines == KeptLines(lines[..i])
      {
        var l := lines[i];
        FilterNext(lines, i, IsNoise);
        i := i + 1;
        if StartsWith(l, "Security Alert") {
          continue;
        }
        if StartsWith(l, "Continuing execution") {
          continue;
        }
        if |Strip(l)| == 0 {
          continue;
        }
        fmtlines := fmtlines + [l];
      }
      assert lines[..|lines|] == lines;
      cmd := cmd.(stdout := Join(fmtlines, "\n"));
    }
  }

  /** Filtering one more element. */
  lemma FilterNext<T>(s: seq<T>, i: nat, drop: T -> bool)
    requires i < |s|
    ensures Filter(s[..i + 1], drop) == Filter(s[..i], drop) + (if drop(s[i]) then [] else [s[i]])
  {
    assert s[..i + 1][..i] == s[..i];
  }

  /** Filtering distributes over concatenation, so it keeps the original order. */
  lemma {:induction false} FilterAppend<T>(a: seq<T>, b: seq<T>, drop: T -> bool)
    ensures Filter(a + b, drop) == Filter(a, drop) + Filter(b, drop)
    decreases |b|
  {
    if b == [] {
      assert a + b == a;
    } else {
      var c, last := b[..|b| - 1], b[|b| - 1];
      assert (a + b)[..|a + b| - 1] == a + c;
      FilterAppend(a, c, drop);
    }
  }

  /** An element is kept exactly when it occurs in the input and is not rejected. */
  lemma {:induction false} FilterMember<T>(s: seq<T>, x: T, drop: T -> bool)
    ensures x in Filter(s, drop) <==> x in s && !drop(x)
  {
    if s != [] {
      var init, last := s[..|s| - 1], s[|s| - 1];
      FilterMember(init, x, drop);
      assert s == init + [last];
    }
  }

  /** Filtering an already filtered sequence changes nothing. */
  lemma {:induction false} FilterIdempotent<T>(s: seq<T>, drop: T -> bool)
    ensures Filter(Filter(s, drop), drop) == Filter(s, drop)
  {
    if s != [] {
      var init, last := s[..|s| - 1], s[|s| - 1];
      FilterIdempotent(init, drop);
      FilterAppend(Filter(init, drop), if drop(last) then [] else [last], drop);
      if !drop(last) {
        assert Filter([last], drop) == Filter([], drop) + [last] by {
          assert [last][..0] == [];
        }
      }
    }
  }

  /** The filter keeps the order of the lines: it distributes over concatenation. */
  lemma KeptLinesAppend(a: seq<string>, b: seq<string>)
    ensures KeptLines(a + b) == KeptLines(a) + KeptLines(b)
  {
    FilterAppend(a, b, IsNoise);
  }

  /** A line is kept exactly when it occurs in the input and is not noise. */
  lemma KeptLinesMember(ls: seq<string>, x: string)
    ensures x in KeptLines(ls) <==> x in ls && !IsNoise(x)
  {
    FilterMember(ls, x, IsNoise);
  }

  /** Filtering an already filtered list changes nothing. */
  lemma KeptLinesIdempotent(ls: seq<string>)
    ensures KeptLines(KeptLines(ls)) == KeptLines(ls)
  {
    FilterIdempotent(ls, IsNoise);
  }

  /** Every kept line is an input line that is not noise. */
  lemma KeptLinesAreClean(ls: seq<string>)
    ensures forall i :: 0 <= i < |KeptLines(ls)| ==>
              KeptLines(ls)[i] in ls && !IsNoise(KeptLines(ls)[i])
  {
    forall i | 0 <= i < |KeptLines(ls)|
      ensures KeptLines(ls)[i] in ls && !IsNoise(KeptLines(ls)[i])
    {
      KeptLinesMember(ls, KeptLines(ls)[i]);
    }
  }

  /** A kept line is not blank. */
  lemma NotNoiseNotBlank(l: string)
    requires !IsNoise(l)
    ensures HasNonSpace(l) && l != ""
  {
    StripEmptyIff(l);
  }

  /** Splitting the cleaned stdout into lines gives exactly the kept lines. */
  lemma CleanStdoutLines(stdout: string)
    ensures SplitLines(CleanStdout(stdout)) == KeptLines(SplitLines(stdout))
  {
    var ls := SplitLines(stdout);
    var k := KeptLines(ls);
    KeptLinesAreClean(ls);
    forall i | 0 <= i < |k| ensures NoLineBreak(k[i]) {
      var j :| 0 <= j < |ls| && ls[j] == k[i];
    }
    if |k| > 0 {
      NotNoiseNotBlank(k[|k| - 1]);
    }
    SplitLinesJoin(k);
  }

  /** Cleaning a cleaned stdout gives the same text. */
  lemma CleanStdoutIdempotent(stdout: string)
    ensures CleanStdout(CleanStdout(stdout)) == CleanStdout(stdout)
  {
    CleanStdoutLines(stdout);
    KeptLinesIdempotent(SplitLines(stdout));
  }

  /** Running the clean-up of `__execute_ret` twice is running it once; it
      touches the output only when the exit status is 0. */
  lemma ProcessedIdempotent(raw: CmdResult)
    ensures Processed(raw).retcode == raw.retcode
    ensures raw.retcode != 0 ==> Processed(raw) == raw
    ensures Processed(Processed(raw)) == Processed(raw)
  {
    CleanStdoutIdempotent(raw.stdout);
  }
}
