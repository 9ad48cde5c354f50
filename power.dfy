/** `server_powerstatus`: the answer of `racadm serveraction powerstatus`
    read as a power state. */
module Power {
  import opened Strings
  import opened Racadm

  /** The dictionary `server_powerstatus` returns: its `retcode` is always 0;
      `status` and `comment` are present only when the output was recognised. */
  datatype PowerReport = PowerReport(retcode: int, status: Option<bool>, comment: Option<string>)

  /** The comment the source attaches to both `ON` and `OFF`. */
  const PowerComment := "Power is on"

  /** The report for the (cleaned) stdout of the command. The checks run one
      after the other, each overwriting the previous; `ON`, `OFF` and a text
      starting with `ERROR` cannot overlap, so at most one applies. */
  function Classify(stdout: string): (r: PowerReport)
    ensures r.retcode == 0
    ensures r.status == Some(true) <==> stdout == "ON"
    ensures r.status == Some(false) <==> stdout == "OFF" || StartsWith(stdout, "ERROR")
    ensures r.comment.Some? <==> r.status.Some?
    ensures StartsWith(stdout, "ERROR") ==> r.comment == Some(stdout)
  {
    var r := PowerReport(0, None, None);
    var r := if stdout == "ON" then r.(status := Some(true), comment := Some(PowerComment)) else r;
    var r := if stdout == "OFF" then r.(status := Some(false), comment := Some(PowerComment)) else r;
    if StartsWith(stdout, "ERROR") then r.(status := Some(false), comment := Some(stdout)) else r
  }

  /** The report for `OFF` carries the comment meant for `ON`. */
  lemma OffSaysOn()
    ensures Classify("OFF").status == Some(false)
    ensures Classify("OFF").comment == Classify("ON").comment == Some(PowerComment)
  {
  }

  /** `server_powerstatus`: classify what `__execute_ret` hands back. A failed
      command keeps its raw stdout, so an `ERROR` message is reported as such. */
  method ServerPowerstatus(target: Target, scope: Option<string>, run: Runner) returns (r: PowerReport)
    ensures r == Classify(Processed(run(0, RetLine("serveraction powerstatus", target, scope))).stdout)
  {
    var ret := ExecuteRet("serveraction powerstatus", target, scope, run, 0);
    r := PowerReport(0, None, None);
    if ret.stdout == "ON" {
      r := r.(status := Some(true), comment := Some(PowerComment));
    }
    if ret.stdout == "OFF" {
      r := r.(status := Some(false), comment := Some(PowerComment));
    }
    if StartsWith(ret.stdout, "ERROR") {
      r := r.(status := Some(false), comment := Some(ret.stdout));
    }
  }

  /** Security notices and blank lines around the answer do not hide it: a
      successful command whose only other lines are noise reports `ON`. */
  lemma NoiseAroundOn(raw: CmdResult)
    requires raw.retcode == 0 && KeptLines(SplitLines(raw.stdout)) == ["ON"]
    ensures Classify(Processed(raw).stdout).status == Some(true)
  {
  }
}
