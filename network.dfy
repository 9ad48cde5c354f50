/** The network settings of the DRAC: the two forms of `setniccfg` built by
    `set_niccfg`, and `nameservers`, which configures at most two DNS servers
    one command at a time and gives up at the first failure. */
module Network {
  import opened Strings
  import opened Racadm

  // ------------------------------------------------------------ set_niccfg

  /** The `setniccfg` command: `-d` asks for DHCP; otherwise `-s` sets a static
      address, and all three of address, netmask and gateway must be given
      (concatenating a missing one raises). */
  function NicCfgCommand(ip: Option<string>, subnet: Option<string>, gateway: Option<string>, dhcp: bool): string
    requires !dhcp ==> ip.Some? && subnet.Some? && gateway.Some?
  {
    if dhcp then "setniccfg " + "-d "
    else "setniccfg " + "-s " + ip.value + " " + subnet.value + " " + gateway.value
  }

  /** The two forms are told apart by their flag, and the static form reads
      back: what follows `setniccfg -s ` splits at single spaces into exactly
      the address, the netmask and the gateway, as long as none holds a space. */
  lemma NicCfgDecode(ip: string, subnet: string, gateway: string)
    requires ' ' !in ip && ' ' !in subnet && ' ' !in gateway
    ensures var cmd := NicCfgCommand(Some(ip), Some(subnet), Some(gateway), false);
            var prefix := "setniccfg " + "-s ";
            StartsWith(cmd, prefix) && SplitOn(cmd[|prefix|..], ' ') == [ip, subnet, gateway]
    ensures !StartsWith(NicCfgCommand(Some(ip), Some(subnet), Some(gateway), true), "setniccfg " + "-s ")
  {
    var prefix := "setniccfg " + "-s ";
    var rest := ip + " " + subnet + " " + gateway;
    var cmd := NicCfgCommand(Some(ip), Some(subnet), Some(gateway), false);
    assert cmd == prefix + rest;
    assert cmd[..|prefix|] == prefix;
    assert cmd[|prefix|..] == rest;
    assert rest == ip + [' '] + (subnet + [' '] + gateway);
    SplitOnConcat(ip, subnet + [' '] + gateway, ' ');
    SplitOnConcat(subnet, gateway, ' ');
    SplitOnNoSep(ip, ' ');
    SplitOnNoSep(subnet, ' ');
    SplitOnNoSep(gateway, ' ');
    assert NicCfgCommand(Some(ip), Some(subnet), Some(gateway), true)[11] == 'd';
  }

  /** `set_niccfg`: true exactly when `setniccfg` exits with status 0. */
  method SetNicCfg(ip: Option<string>, subnet: Option<string>, gateway: Option<string>, dhcp: bool,
                   target: Target, scope: Option<string>, run: Runner) returns (ok: bool)
    requires !dhcp ==> ip.Some? && subnet.Some? && gateway.Some?
    ensures ok <==> run(0, CmdLine(NicCfgCommand(ip, subnet, gateway, dhcp), target, scope)).retcode == 0
  {
    var cmdstr := "setniccfg ";
    if dhcp {
      cmdstr := cmdstr + "-d ";
    } else {
      cmdstr := cmdstr + "-s " + ip.value + " " + subnet.value + " " + gateway.value;
    }
    ok := ExecuteCmd(cmdstr, target, scope, run, 0);
  }

  // ------------------------------------------------------------ nameservers

  /** The most DNS servers `racadm` accepts. */
  const MaxNameservers := 2

  /** The command that sets DNS server number `i` (counting from 1). */
  function DnsCommand(i: nat, server: string): string {
    "config -g cfgLanNetworking -o cfgDNSServer" + Decimal(i) + " " + server
  }

  /** The command reads back: after the `cfgDNSServer` prefix come the decimal
      index and, after one space, the server, as long as the server holds no space. */
  lemma DnsCommandDecode(i: nat, server: string)
    requires ' ' !in server
    ensures var prefix := "config -g cfgLanNetworking -o cfgDNSServer";
            var cmd := DnsCommand(i, server);
            StartsWith(cmd, prefix)
            && var parts := SplitOn(cmd[|prefix|..], ' ');
               |parts| == 2 && ValueOf(parts[0], 10) == i && parts[1] == server
  {
    var prefix := "config -g cfgLanNetworking -o cfgDNSServer";
    var d := Decimal(i);
    var cmd := DnsCommand(i, server);
    assert cmd == prefix + (d + [' '] + server);
    assert cmd[..|prefix|] == prefix;
    assert cmd[|prefix|..] == d + [' '] + server;
    SplitOnConcat(d, server, ' ');
    DecimalNoSpace(i);
    SplitOnNoSep(d, ' ');
    SplitOnNoSep(server, ' ');
    DigitsValue(i, 10);
  }

  /** The command lines for the servers `ns`, in order. */
  function DnsLines(ns: seq<string>, target: Target, scope: Option<string>): (r: seq<string>)
    ensures |r| == |ns|
  {
    seq(|ns|, k requires 0 <= k < |ns| => CmdLine(DnsCommand(k + 1, ns[k]), target, scope))
  }

  /** `nameservers`: more than two servers are refused before any command is
      run; otherwise the servers are set in order until one command fails.
      `issued` lists the command lines run. */
  method Nameservers(ns: seq<string>, target: Target, scope: Option<string>, run: Runner)
    returns (ok: bool, issued: seq<string>)
    ensures |ns| > MaxNameservers ==> !ok && issued == []
    ensures |ns| <= MaxNameservers ==>
              (ok <==> AllSucceed(run, 0, DnsLines(ns, target, scope)))
              && issued == Attempted(run, 0, DnsLines(ns, target, scope), 0)
  {
    issued := [];
    if |ns| > MaxNameservers {
      return false, issued;
    }
    var lines := DnsLines(ns, target, scope);
    var i := 1;
    while i < |ns| + 1
      invariant 1 <= i <= |ns| + 1
      invariant forall k :: 0 <= k < i - 1 ==> run(k, lines[k]).retcode == 0
      invariant issued + Attempted(run, 0, lines, i - 1) == Attempted(run, 0, lines, 0)
    {
      var done := ExecuteCmd(DnsCommand(i, ns[i - 1]), target, scope, run, i - 1);
      assert lines[i - 1] == CmdLine(DnsCommand(i, ns[i - 1]), target, scope);
      issued := issued + [lines[i - 1]];
      if !done {
        assert Attempted(run, 0, lines, i - 1) == [lines[i - 1]];
        return false, issued;
      }
      assert Attempted(run, 0, lines, i - 1) == [lines[i - 1]] + Attempted(run, 0, lines, i);
      i := i + 1;
    }
    assert Attempted(run, 0, lines, |ns|) == [];
    return true, issued;
  }
}
