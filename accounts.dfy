/** User management on the DRAC: the privilege mask of `set_permissions`, the
    uid choice and duplicate-name check of `create_user`, its four-step
    sequence with rollback, and the `set_permissions`, `change_password` and
    `delete_user` commands it is built from. */
module Accounts {
  import opened Strings
  import opened Racadm
  import opened Users

  // ---------------------------------------------------------------- privileges

  /** The privilege table of `set_permissions`: each name with its bit, in
      the order the source lists them. */
  const PrivilegeTable: seq<(string, nat)> := [
    ("login", 0x1), ("drac", 0x2), ("user_management", 0x4), ("clear_logs", 0x8),
    ("server_control_commands", 0x10), ("console_redirection", 0x20),
    ("virtual_media", 0x40), ("test_alerts", 0x80), ("debug_commands", 0x100)
  ]

  /** The bit `table` gives `name`, if it lists the name; the first entry wins. */
  function Lookup(table: seq<(string, nat)>, name: string): Option<nat> {
    if table == [] then None
    else if table[0].0 == name then Some(table[0].1)
    else Lookup(table[1..], name)
  }

  /** What a name adds to the mask: its bit, or 0 when the table lacks it. */
  function PrivilegeValue(name: string): nat {
    match Lookup(PrivilegeTable, name)
    case Some(bit) => bit
    case None => 0
  }

  /** `f` applied to each element of `s`. */
  function MapSeq<T, U>(s: seq<T>, f: T -> U): (r: seq<U>)
    ensures |r| == |s|
    ensures forall i :: 0 <= i < |s| ==> r[i] == f(s[i])
  {
    seq(|s|, i requires 0 <= i < |s| => f(s[i]))
  }

  /** The sum of `value` over `xs`. */
  function Sum<T>(xs: seq<T>, value: T -> nat): nat {
    if xs == [] then 0
    else Sum(xs[..|xs| - 1], value) + value(xs[|xs| - 1])
  }

  /** The stripped comma-separated names of a `permissions` argument. */
  function PermissionNames(permissions: string): seq<string> {
    MapSeq(SplitOn(permissions, ','), Strip)
  }

  /** The mask `set_permissions` assembles: the values are added, not or-ed. */
  function Mask(permissions: string): nat {
    Sum(PermissionNames(permissions), PrivilegeValue)
  }

  /** The mask loop of `set_permissions`. */
  method PermissionMask(permissions: string) returns (permission: nat)
    ensures permission == Mask(permissions)
  {
    var parts := SplitOn(permissions, ',');
    permission := 0;
    var k := 0;
    while k < |parts|
      invariant 0 <= k <= |parts|
      invariant permission == Sum(PermissionNames(permissions)[..k], PrivilegeValue)
    {
      permission := MaskTurn(permissions, parts, k, permission);
      k := k + 1;
    }
    MaskWhole(permissions);
  }

  /** The body of the mask loop: the `k`-th part, stripped, adds its value. */
  method MaskTurn(permissions: string, parts: seq<string>, k: nat, permission0: nat) returns (permission: nat)
    requires parts == SplitOn(permissions, ',') && k < |parts|
    requires permission0 == Sum(PermissionNames(permissions)[..k], PrivilegeValue)
    ensures permission == Sum(PermissionNames(permissions)[..k + 1], PrivilegeValue)
  {
    var perm := Strip(parts[k]);
    permission := AddPrivilege(permission0, perm);
    MaskStep(permissions, k);
  }

  /** One turn of the mask loop: a name in the table adds its bit. */
  method AddPrivilege(permission0: nat, perm: string) returns (permission: nat)
    ensures permission == permission0 + PrivilegeValue(perm)
  {
    permission := permission0;
    var bit := Lookup(PrivilegeTable, perm);
    if bit.Some? {
      permission := permission + bit.value;
    }
  }

  /** The mask of the first `k + 1` names adds the value of the `k`-th part, stripped. */
  lemma MaskStep(permissions: string, k: nat)
    requires k < |SplitOn(permissions, ',')|
    ensures Sum(PermissionNames(permissions)[..k + 1], PrivilegeValue)
            == Sum(PermissionNames(permissions)[..k], PrivilegeValue) + PrivilegeValue(Strip(SplitOn(permissions, ',')[k]))
  {
    SumPrefix(PermissionNames(permissions), PrivilegeValue, k);
  }

  /** All the names together give the mask. */
  lemma MaskWhole(permissions: string)
    ensures Sum(PermissionNames(permissions)[..|SplitOn(permissions, ',')|], PrivilegeValue) == Mask(permissions)
  {
    var names := PermissionNames(permissions);
    assert names[..|names|] == names;
  }

  /** The sum over a prefix grows by the value of the next element. */
  lemma SumPrefix<T>(xs: seq<T>, value: T -> nat, k: nat)
    requires k < |xs|
    ensures Sum(xs[..k + 1], value) == Sum(xs[..k], value) + value(xs[k])
  {
    assert xs[..k + 1][..k] == xs[..k];
  }

  lemma {:induction false} SumAppend<T>(a: seq<T>, b: seq<T>, value: T -> nat)
    ensures Sum(a + b, value) == Sum(a, value) + Sum(b, value)
    decreases |b|
  {
    if b == [] {
      assert a + b == a;
    } else {
      var n := |b| - 1;
      assert (a + b)[..|a| + n] == a + b[..n];
      SumAppend(a, b[..n], value);
    }
  }

  lemma SumSingle<T>(x: T, value: T -> nat)
    ensures Sum([x], value) == value(x)
  {
    assert [x][..0] == [];
  }

  /** Where the last element of `a` sits in its rearrangement `b`. */
  lemma TakeOut<T>(a: seq<T>, b: seq<T>) returns (p: seq<T>, q: seq<T>)
    requires a != [] && multiset(a) == multiset(b)
    ensures b == p + [a[|a| - 1]] + q
    ensures multiset(a[..|a| - 1]) == multiset(p + q)
  {
    var x := a[|a| - 1];
    var init := a[..|a| - 1];
    assert a == init + [x];
    assert multiset(a) == multiset(init) + multiset{x};
    assert x in multiset(b);
    var i :| 0 <= i < |b| && b[i] == x;
    p, q := b[..i], b[i + 1..];
    assert b == p + [x] + q;
    assert multiset(b) == multiset(p) + multiset{x} + multiset(q);
    assert multiset(p + q) == multiset(p) + multiset(q);
    assert multiset(init) == multiset(a) - multiset{x};
    assert multiset(p + q) == multiset(b) - multiset{x};
  }

  /** The order of the elements does not matter to the sum. */
  lemma {:induction false} SumPermutation<T>(a: seq<T>, b: seq<T>, value: T -> nat)
    requires multiset(a) == multiset(b)
    ensures Sum(a, value) == Sum(b, value)
    decreases |a|
  {
    if a != [] {
      var n := |a| - 1;
      var p, q := TakeOut(a, b);
      SumPermutation(a[..n], p + q, value);
      SumAppend(p, q, value);
      SumAppend(p + [a[n]], q, value);
      assert (p + [a[n]])[..|p|] == p;
    }
  }

  /** The mask does not depend on the order of the names. */
  lemma MaskOfPermutation(a: seq<string>, b: seq<string>)
    requires multiset(a) == multiset(b)
    ensures Sum(a, PrivilegeValue) == Sum(b, PrivilegeValue)
  {
    SumPermutation(a, b, PrivilegeValue);
  }

  lemma MapSeqAppend<T, U>(p: seq<T>, q: seq<T>, f: T -> U)
    ensures MapSeq(p + q, f) == MapSeq(p, f) + MapSeq(q, f)
  {
    var l, r := MapSeq(p + q, f), MapSeq(p, f) + MapSeq(q, f);
    forall i | 0 <= i < |l|
      ensures l[i] == r[i]
    {
      if i < |p| {
        assert (p + q)[i] == p[i];
      } else {
        assert (p + q)[i] == q[i - |p|];
      }
    }
  }

  /** Splitting at a comma splits the mask: `Mask(a,b)` is `Mask(a) + Mask(b)`. */
  lemma MaskConcat(a: string, b: string)
    ensures Mask(a + "," + b) == Mask(a) + Mask(b)
  {
    assert a + "," + b == a + [','] + b;
    SplitOnConcat(a, b, ',');
    MapSeqAppend(SplitOn(a, ','), SplitOn(b, ','), Strip);
    SumAppend(PermissionNames(a), PermissionNames(b), PrivilegeValue);
  }

  /** A single name without a comma counts its own value. */
  lemma MaskSingle(name: string)
    requires ',' !in name
    ensures Mask(name) == PrivilegeValue(Strip(name))
  {
    SplitOnNoSep(name, ',');
    assert PermissionNames(name) == [Strip(name)];
    SumSingle(Strip(name), PrivilegeValue);
  }

  /** A name the table lacks adds nothing. */
  lemma UnknownAddsNothing(a: string, b: string)
    requires ',' !in b && Lookup(PrivilegeTable, Strip(b)).None?
    ensures Mask(a + "," + b) == Mask(a)
  {
    MaskConcat(a, b);
    MaskSingle(b);
  }

  /** A repeated name is added twice: `login,login` gives 2, not 1. */
  lemma DuplicatesAdd(name: string)
    requires ',' !in name
    ensures Mask(name + "," + name) == 2 * PrivilegeValue(Strip(name))
  {
    MaskConcat(name, name);
    MaskSingle(name);
  }

  /** The privilege argument: `0x` and the mask in `{:08X}` form. */
  function PrivilegeArg(mask: nat): string {
    "0x" + Hex08(mask)
  }

  /**
   * The argument reads back as the mask, in upper-case hex digits: exactly
   * eight of them for a 32-bit mask, and no leading zero beyond that.
   */
  lemma PrivilegeArgSpec(mask: nat)
    ensures |PrivilegeArg(mask)| >= 10 && PrivilegeArg(mask)[..2] == "0x"
    ensures mask < 0x1_0000_0000 ==> |PrivilegeArg(mask)| == 10
    ensures mask >= 0x1_0000_0000 ==> PrivilegeArg(mask)[2] != '0'
    ensures forall i :: 2 <= i < |PrivilegeArg(mask)| ==> PrivilegeArg(mask)[i] in HexDigits
    ensures ValueOf(PrivilegeArg(mask)[2..], 16) == mask
  {
    Hex08Spec(mask);
    assert PrivilegeArg(mask)[2..] == Hex08(mask);
  }

  // ---------------------------------------------------------------- uid choice

  /** The free uids from `hi` down to 2, in descending order: the sorted list
      `create_user` pops from. */
  function DescFree(uids: set<int>, hi: int): seq<int>
    decreases hi
  {
    if hi < 2 then [] else (if hi in uids then [] else [hi]) + DescFree(uids, hi - 1)
  }

  /** `DescFree` holds exactly the free uids of `2..hi`. */
  lemma {:induction false} DescFreeMembers(uids: set<int>, hi: int)
    ensures forall x :: x in DescFree(uids, hi) <==> 2 <= x <= hi && x !in uids
    decreases hi
  {
    if hi >= 2 {
      DescFreeMembers(uids, hi - 1);
      var head: seq<int> := if hi in uids then [] else [hi];
      assert DescFree(uids, hi) == head + DescFree(uids, hi - 1);
      forall x ensures x in DescFree(uids, hi) <==> x in head || x in DescFree(uids, hi - 1) {
      }
    }
  }

  /** `DescFree` is strictly descending, as `sorted(..., reverse=True)` leaves it. */
  lemma {:induction false} DescFreeSorted(uids: set<int>, hi: int)
    ensures forall i, j :: 0 <= i < j < |DescFree(uids, hi)| ==> DescFree(uids, hi)[i] > DescFree(uids, hi)[j]
    decreases hi
  {
    if hi >= 2 {
      var rest := DescFree(uids, hi - 1);
      DescFreeSorted(uids, hi - 1);
      DescFreeMembers(uids, hi - 1);
      if hi !in uids {
        var d := DescFree(uids, hi);
        assert d == [hi] + rest;
        forall i, j | 0 <= i < j < |d| ensures d[i] > d[j] {
          assert d[j] == rest[j - 1] && rest[j - 1] in rest;
          if i > 0 {
            assert d[i] == rest[i - 1];
          }
        }
      }
    }
  }

  /** The last of `DescFree` is the smallest free uid: every uid from 2 below it is taken. */
  lemma {:induction false} DescFreeLast(uids: set<int>, hi: int)
    requires |DescFree(uids, hi)| > 0
    ensures var r := DescFree(uids, hi)[|DescFree(uids, hi)| - 1];
            2 <= r <= hi && r !in uids && forall x :: 2 <= x < r ==> x in uids
    decreases hi
  {
    var rest := DescFree(uids, hi - 1);
    if |rest| > 0 {
      DescFreeLast(uids, hi - 1);
    } else {
      DescFreeMembers(uids, hi - 1);
      assert forall x :: 2 <= x <= hi - 1 ==> x in uids || x in rest;
    }
  }

  /** Some uid of 2..11 is free; otherwise `pop` on the empty list raises. */
  predicate HasFreeUid(uids: set<int>) {
    exists x :: 2 <= x <= 11 && x !in uids
  }

  /** The uid `create_user` gives a new user: the last of the free uids of
      2..11 sorted in descending order, which is the smallest of them. */
  function ChooseUid(uids: set<int>): (r: nat)
    requires HasFreeUid(uids)
    ensures 2 <= r <= 11 && r !in uids
    ensures forall x :: 2 <= x < r ==> x in uids
  {
    DescFreeNonEmpty(uids);
    var free := DescFree(uids, 11);
    DescFreeLast(uids, 11);
    free[|free| - 1]
  }

  lemma DescFreeNonEmpty(uids: set<int>)
    requires HasFreeUid(uids)
    ensures |DescFree(uids, 11)| > 0
  {
    var x :| 2 <= x <= 11 && x !in uids;
    DescFreeMembers(uids, 11);
    assert x in DescFree(uids, 11);
  }

  /** The uids of a user table. */
  function UidsOf(users: UserTable): set<int> {
    set n | n in users :: users[n].index as int
  }

  // ---------------------------------------------------------------- commands

  function UserAdminCommand(field: string, uid: nat, arg: string): string {
    "config -g cfgUserAdmin -o " + field + " -i " + Decimal(uid) + " " + arg
  }

  function NameCommand(uid: nat, username: string): string {
    UserAdminCommand("cfgUserAdminUserName", uid, username)
  }

  function PrivilegeCommand(uid: nat, mask: nat): string {
    UserAdminCommand("cfgUserAdminPrivilege", uid, PrivilegeArg(mask))
  }

  function PasswordCommand(uid: nat, password: string): string {
    UserAdminCommand("cfgUserAdminPassword", uid, password)
  }

  function EnableCommand(uid: nat): string {
    UserAdminCommand("cfgUserAdminEnable", uid, "1")
  }

  /** Deleting a user sets its name to the two characters `""`. */
  function DeleteCommand(uid: nat): string {
    UserAdminCommand("cfgUserAdminUserName", uid, "\"\"")
  }

  /** The uid a command works on: the one given, or the index `list_users`
      reports for the user. */
  function ResolveUid(username: string, uid: Option<nat>, target: Target, run: Runner, call: nat): nat
    requires uid.None? ==> AllParsable(AllQueries(target, run, call)) && username in Listed(target, run, call)
  {
    if uid.Some? then uid.value else Listed(target, run, call)[username].index
  }

  /** The call number of the command that follows the optional listing. */
  function AfterLookup(uid: Option<nat>, call: nat): nat {
    if uid.Some? then call else call + 16
  }

  /** The command of `set_permissions` once the uid is known. */
  method SetPermissionsOf(uid: nat, permissions: string, target: Target, run: Runner, call: nat)
    returns (ok: bool)
    ensures ok <==> run(call, CmdLine(PrivilegeCommand(uid, Mask(permissions)), target, None)).retcode == 0
  {
    var permission := PermissionMask(permissions);
    ok := ExecuteCmd(PrivilegeCommand(uid, permission), target, None, run, call);
  }

  /** `set_permissions`: without a uid the user is looked up with a local
      `list_users`, whose table must hold the name. */
  method SetPermissions(username: string, permissions: string, uid: Option<nat>, target: Target, run: Runner, call: nat)
    returns (ok: bool)
    requires uid.None? ==> AllParsable(AllQueries(LocalTarget, run, call)) && username in Listed(LocalTarget, run, call)
    ensures ok <==> run(AfterLookup(uid, call),
                        CmdLine(PrivilegeCommand(ResolveUid(username, uid, LocalTarget, run, call), Mask(permissions)), target, None)
                    ).retcode == 0
  {
    var u: nat;
    if uid.None? {
      var users := ListUsers(LocalTarget, run, call);
      u := users[username].index;
    } else {
      u := uid.value;
    }
    ok := SetPermissionsOf(u, permissions, target, run, AfterLookup(uid, call));
  }

  /** The command of `change_password` once the uid is known: a uid of 0
      issues nothing and fails. */
  method ChangePasswordOf(uid: nat, password: string, target: Target, scope: Option<string>, run: Runner, call: nat)
    returns (ok: bool)
    ensures ok <==> uid != 0 && run(call, CmdLine(PasswordCommand(uid, password), target, scope)).retcode == 0
  {
    if uid != 0 {
      ok := ExecuteCmd(PasswordCommand(uid, password), target, scope, run, call);
    } else {
      ok := false;
    }
  }

  /** `change_password`: without a uid the user is looked up with `list_users`
      on the same target. */
  method ChangePassword(username: string, password: string, uid: Option<nat>, target: Target, scope: Option<string>,
                        run: Runner, call: nat)
    returns (ok: bool)
    requires uid.None? ==> AllParsable(AllQueries(target, run, call)) && username in Listed(target, run, call)
    ensures var u := ResolveUid(username, uid, target, run, call);
            ok <==> u != 0 && run(AfterLookup(uid, call), CmdLine(PasswordCommand(u, password), target, scope)).retcode == 0
  {
    var u: nat;
    if uid.None? {
      var users := ListUsers(target, run, call);
      u := users[username].index;
    } else {
      u := uid.value;
    }
    ok := ChangePasswordOf(u, password, target, scope, run, AfterLookup(uid, call));
  }

  /** The command of `delete_user` once the uid is known: a uid of 0 issues
      nothing and fails. */
  method DeleteUserOf(uid: nat, target: Target, run: Runner, call: nat)
    returns (ok: bool)
    ensures ok <==> uid != 0 && run(call, CmdLine(DeleteCommand(uid), target, None)).retcode == 0
  {
    if uid != 0 {
      ok := ExecuteCmd(DeleteCommand(uid), target, None, run, call);
    } else {
      ok := false;
    }
  }

  /** `delete_user`: without a uid the user is looked up with a local `list_users`. */
  method DeleteUser(username: string, uid: Option<nat>, target: Target, run: Runner, call: nat)
    returns (ok: bool)
    requires uid.None? ==> AllParsable(AllQueries(LocalTarget, run, call)) && username in Listed(LocalTarget, run, call)
    ensures var u := ResolveUid(username, uid, LocalTarget, run, call);
            ok <==> u != 0 && run(AfterLookup(uid, call), CmdLine(DeleteCommand(u), target, None)).retcode == 0
  {
    var u: nat;
    if uid.None? {
      var users := ListUsers(LocalTarget, run, call);
      u := users[username].index;
    } else {
      u := uid.value;
    }
    ok := DeleteUserOf(u, target, run, AfterLookup(uid, call));
  }

  // ---------------------------------------------------------------- create_user

  /** The user table `create_user` works from: the one given, or a local `list_users`. */
  function KnownUsers(users: Option<UserTable>, run: Runner): UserTable
    requires users.None? ==> AllParsable(AllQueries(LocalTarget, run, 0))
  {
    if users.Some? then users.value else Listed(LocalTarget, run, 0)
  }

  /** The four command lines of `create_user`, in order. Only the first goes
      to `target`; the other three, and the rollback, run locally. */
  function CreateSteps(uid: nat, username: string, password: string, permissions: string, target: Target): (r: seq<string>)
    ensures |r| == 4
  {
    [ CmdLine(NameCommand(uid, username), target, None),
      CmdLine(PrivilegeCommand(uid, Mask(permissions)), LocalTarget, None),
      CmdLine(PasswordCommand(uid, password), LocalTarget, None),
      CmdLine(EnableCommand(uid), LocalTarget, None) ]
  }

  function Rollback(uid: nat): string {
    CmdLine(DeleteCommand(uid), LocalTarget, None)
  }

  /** The commands issued when `steps[i..]` run as calls `base + i`, ...:
      each in turn until one fails, which is followed by `rollback`. */
  function Issued(run: Runner, base: nat, steps: seq<string>, rollback: string, i: nat): seq<string>
    requires i <= |steps|
    decreases |steps| - i
  {
    if i == |steps| then []
    else if run(base + i, steps[i]).retcode != 0 then [steps[i], rollback]
    else [steps[i]] + Issued(run, base, steps, rollback, i + 1)
  }

  /** The commands issued are those attempted, followed by the rollback when
      a step failed. */
  lemma {:induction false} IssuedAttempted(run: Runner, base: nat, steps: seq<string>, rollback: string, i: nat)
    requires i <= |steps|
    ensures Issued(run, base, steps, rollback, i)
            == Attempted(run, base, steps, i) + (if FirstFailure(run, base, steps, i) < |steps| then [rollback] else [])
    decreases |steps| - i
  {
    if i < |steps| && run(base + i, steps[i]).retcode == 0 {
      IssuedAttempted(run, base, steps, rollback, i + 1);
      assert FirstFailure(run, base, steps, i) == FirstFailure(run, base, steps, i + 1);
      var tail := if FirstFailure(run, base, steps, i) < |steps| then [rollback] else [];
      assert [steps[i]] + (Attempted(run, base, steps, i + 1) + tail)
          == ([steps[i]] + Attempted(run, base, steps, i + 1)) + tail;
    }
  }

  /** The commands issued are the steps up to and including the first that
      fails, then the rollback; all the steps when none fails. */
  lemma IssuedSpec(run: Runner, base: nat, steps: seq<string>, rollback: string, i: nat)
    requires i <= |steps|
    ensures var f := FirstFailure(run, base, steps, i);
            Issued(run, base, steps, rollback, i)
            == if f < |steps| then steps[i..f + 1] + [rollback] else steps[i..]
  {
    IssuedAttempted(run, base, steps, rollback, i);
    AttemptedSpec(run, base, steps, i);
    if FirstFailure(run, base, steps, i) == |steps| {
      assert steps[i..|steps|] + [] == steps[i..];
    }
  }

  /** One step of `Issued` and `FirstFailure`: a failing step ends the run
      with the rollback, a succeeding one passes on to the next. */
  lemma IssuedNext(run: Runner, base: nat, steps: seq<string>, rollback: string, i: nat)
    requires i <= |steps|
    ensures i == |steps| ==> FirstFailure(run, base, steps, i) == i && Issued(run, base, steps, rollback, i) == []
    ensures i < |steps| && run(base + i, steps[i]).retcode != 0 ==>
              FirstFailure(run, base, steps, i) == i && Issued(run, base, steps, rollback, i) == [steps[i], rollback]
    ensures i < |steps| && run(base + i, steps[i]).retcode == 0 ==>
              FirstFailure(run, base, steps, i) == FirstFailure(run, base, steps, i + 1)
              && Issued(run, base, steps, rollback, i) == [steps[i]] + Issued(run, base, steps, rollback, i + 1)
  {
  }

  /** `create_user` with the user table in hand, its first command numbered `base`. */
  method CreateWithTable(username: string, password: string, permissions: string, table: UserTable,
                         target: Target, run: Runner, base: nat)
    returns (ok: bool, issued: seq<string>)
    requires username !in table ==> HasFreeUid(UidsOf(table))
    ensures username in table ==> !ok && issued == []
    ensures username !in table ==>
              var uid := ChooseUid(UidsOf(table));
              var steps := CreateSteps(uid, username, password, permissions, target);
              (ok <==> AllSucceed(run, base, steps)) && issued == Issued(run, base, steps, Rollback(uid), 0)
  {
    if username in table {
      return false, [];
    }
    var uid := ChooseUid(UidsOf(table));
    ok, issued := AddUser(uid, username, password, permissions, target, run, base);
  }

  /** The four steps of `create_user` for the chosen uid, run until one
      fails; any failure is followed by deleting the uid. */
  method AddUser(uid: nat, username: string, password: string, permissions: string,
                 target: Target, run: Runner, base: nat)
    returns (ok: bool, issued: seq<string>)
    requires uid != 0
    ensures var steps := CreateSteps(uid, username, password, permissions, target);
            (ok <==> AllSucceed(run, base, steps)) && issued == Issued(run, base, steps, Rollback(uid), 0)
  {
    AllSucceedSpec(run, base, CreateSteps(uid, username, password, permissions, target));
    ok, issued := SetNameStep(uid, username, password, permissions, target, run, base);
  }

  /** Step 1: set the user name of the uid on `target`. */
  method SetNameStep(uid: nat, username: string, password: string, permissions: string,
                 target: Target, run: Runner, base: nat)
    returns (ok: bool, issued: seq<string>)
    requires uid != 0
    ensures var steps := CreateSteps(uid, username, password, permissions, target);
            (ok <==> FirstFailure(run, base, steps, 0) == |steps|)
            && issued == Issued(run, base, steps, Rollback(uid), 0)
  {
    var steps := CreateSteps(uid, username, password, permissions, target);
    IssuedNext(run, base, steps, Rollback(uid), 0);
    ok := ExecuteCmd(NameCommand(uid, username), target, None, run, base);
    assert ok <==> run(base + 0, steps[0]).retcode == 0;
    if !ok {
      var _ := DeleteUserOf(uid, LocalTarget, run, base + 1);
      return false, [steps[0], Rollback(uid)];
    }
    var rest;
    ok, rest := SetPermissionsStep(uid, username, password, permissions, target, run, base);
    issued := [steps[0]] + rest;
  }

  /** Step 2: set the privilege mask. */
  method SetPermissionsStep(uid: nat, username: string, password: string, permissions: string,
                 target: Target, run: Runner, base: nat)
    returns (ok: bool, issued: seq<string>)
    requires uid != 0
    ensures var steps := CreateSteps(uid, username, password, permissions, target);
            (ok <==> FirstFailure(run, base, steps, 1) == |steps|)
            && issued == Issued(run, base, steps, Rollback(uid), 1)
  {
    var steps := CreateSteps(uid, username, password, permissions, target);
    IssuedNext(run, base, steps, Rollback(uid), 1);
    ok := SetPermissionsOf(uid, permissions, LocalTarget, run, base + 1);
    assert ok <==> run(base + 1, steps[1]).retcode == 0;
    if !ok {
      var _ := DeleteUserOf(uid, LocalTarget, run, base + 2);
      return false, [steps[1], Rollback(uid)];
    }
    var rest;
    ok, rest := SetPasswordStep(uid, username, password, permissions, target, run, base);
    issued := [steps[1]] + rest;
  }

  /** Step 3: set the password. */
  method SetPasswordStep(uid: nat, username: string, password: string, permissions: string,
                 target: Target, run: Runner, base: nat)
    returns (ok: bool, issued: seq<string>)
    requires uid != 0
    ensures var steps := CreateSteps(uid, username, password, permissions, target);
            (ok <==> FirstFailure(run, base, steps, 2) == |steps|)
            && issued == Issued(run, base, steps, Rollback(uid), 2)
  {
    var steps := CreateSteps(uid, username, password, permissions, target);
    IssuedNext(run, base, steps, Rollback(uid), 2);
    ok := ChangePasswordOf(uid, password, LocalTarget, None, run, base + 2);
    assert ok <==> run(base + 2, steps[2]).retcode == 0;
    if !ok {
      var _ := DeleteUserOf(uid, LocalTarget, run, base + 3);
      return false, [steps[2], Rollback(uid)];
    }
    var rest;
    ok, rest := EnableStep(uid, username, password, permissions, target, run, base);
    issued := [steps[2]] + rest;
  }

  /** Step 4: enable the account. */
  method EnableStep(uid: nat, username: string, password: string, permissions: string,
                 target: Target, run: Runner, base: nat)
    returns (ok: bool, issued: seq<string>)
    requires uid != 0
    ensures var steps := CreateSteps(uid, username, password, permissions, target);
            (ok <==> FirstFailure(run, base, steps, 3) == |steps|)
            && issued == Issued(run, base, steps, Rollback(uid), 3)
  {
    var steps := CreateSteps(uid, username, password, permissions, target);
    IssuedNext(run, base, steps, Rollback(uid), 3);
    ok := ExecuteCmd(EnableCommand(uid), LocalTarget, None, run, base + 3);
    assert ok <==> run(base + 3, steps[3]).retcode == 0;
    if !ok {
      var _ := DeleteUserOf(uid, LocalTarget, run, base + 4);
      return false, [steps[3], Rollback(uid)];
    }
    IssuedNext(run, base, steps, Rollback(uid), 4);
    issued := [steps[3]];
  }

  /** `create_user`. `issued` lists the configuration commands in the order
      they are run (the read-only `list_users` queries, calls 0 to 15 when no
      table is given, are not listed). An existing name issues nothing;
      otherwise the steps run until one fails, and a failure is followed by
      the rollback of the new uid. */
  method CreateUser(username: string, password: string, permissions: string, users: Option<UserTable>,
                    target: Target, run: Runner)
    returns (ok: bool, issued: seq<string>)
    requires users.None? ==> AllParsable(AllQueries(LocalTarget, run, 0))
    requires username !in KnownUsers(users, run) ==> HasFreeUid(UidsOf(KnownUsers(users, run)))
    ensures username in KnownUsers(users, run) ==> !ok && issued == []
    ensures username !in KnownUsers(users, run) ==>
              var uid := ChooseUid(UidsOf(KnownUsers(users, run)));
              var steps := CreateSteps(uid, username, password, permissions, target);
              var base := if users.None? then 16 else 0;
              (ok <==> AllSucceed(run, base, steps)) && issued == Issued(run, base, steps, Rollback(uid), 0)
  {
    var table: UserTable;
    var base: nat := 0;
    if users.None? {
      table := ListUsers(LocalTarget, run, 0);
      base := 16;
    } else {
      table := users.value;
    }
    ok, issued := CreateWithTable(username, password, permissions, table, target, run, base);
  }
}
