/** `list_users`: sixteen `getconfig -g cfgUserAdmin -i N` queries whose
    `cfg...=value` lines are folded into a table of users. The name of the
    user being read (`_username`) carries over from one query to the next; a
    name line with an empty value ends the reading of that query's output. */
module Users {
  import opened Strings
  import opened Racadm

  /** What one output line means to the listing loop. */
  datatype UserLine =
    | Ignored                          // a line that does not start with `cfg`
    | NameLine(name: string)           // `cfgUserAdminUserName...=val` with `val` not empty; `name` is `val` stripped
    | StopLine                         // `cfgUserAdminUserName...=` with nothing after `=`
    | AttrLine(key: string, val: string) // any other `cfg...=val`, neither side stripped
    | Unsplittable                     // a `cfg` line without exactly one `=`

  /** The reading of one line. */
  function ClassifyUserLine(l: string): UserLine {
    if !StartsWith(l, "cfg") then Ignored
    else
      var parts := SplitOn(l, '=');
      if |parts| != 2 then Unsplittable
      else if StartsWith(parts[0], "cfgUserAdminUserName") then
        if parts[1] != "" then NameLine(Strip(parts[1])) else StopLine
      else AttrLine(parts[0], parts[1])
  }

  function ClassifyUserLines(lines: seq<string>): (r: seq<UserLine>)
    ensures |r| == |lines|
  {
    seq(|lines|, i requires 0 <= i < |lines| => ClassifyUserLine(lines[i]))
  }

  /** A user: the query index it was found at and the attribute lines read after its name. */
  datatype UserRecord = UserRecord(index: nat, attrs: map<string, string>)

  type UserTable = map<string, UserRecord>

  /** The loop variables: the table, `_username`, and whether the current query
      was abandoned by `break`. */
  datatype ListState = ListState(users: UserTable, current: string, halted: bool)

  /** The user being read is in the table whenever it has a name. */
  predicate Tracked(st: ListState) {
    st.current != "" ==> st.current in st.users
  }

  /** One iteration of the inner loop, for the query with index `idx`. */
  function LineStep(st: ListState, k: UserLine, idx: nat): ListState
    requires Tracked(st)
  {
    if st.halted then st
    else
      match k
      case Ignored => st
      case Unsplittable => st // the source raises here; `QueryParsable` keeps this case out
      case NameLine(name) => ListState(st.users[name := UserRecord(idx, map[])], name, false)
      case StopLine => st.(current := "", halted := true)
      case AttrLine(key, v) =>
        if |st.current| > 0 then
          var u := st.users[st.current];
          st.(users := st.users[st.current := u.(attrs := u.attrs[key := v])])
        else st
  }

  /** Every `cfg` line the loop reaches splits into exactly a key and a value;
      otherwise the tuple assignment raises. */
  predicate QueryParsable(ks: seq<UserLine>) {
    ks == [] ||
    var n := |ks| - 1;
    QueryParsable(ks[..n]) && (ks[n].Unsplittable? ==> StopLine in ks[..n])
  }

  /** The state after reading the lines `ks` of the query with index `idx`:
      reading stops exactly when a `StopLine` was met. */
  function QueryRun(st: ListState, ks: seq<UserLine>, idx: nat): (r: ListState)
    requires Tracked(st) && !st.halted
    ensures Tracked(r)
    ensures r.halted <==> StopLine in ks
  {
    if ks == [] then st
    else
      var n := |ks| - 1;
      assert ks == ks[..n] + [ks[n]];
      LineStep(QueryRun(st, ks[..n], idx), ks[n], idx)
  }

  predicate AllParsable(qs: seq<seq<UserLine>>) {
    forall q :: 0 <= q < |qs| ==> QueryParsable(qs[q])
  }

  /** The state after the queries `qs`; query `q` has index `q + 1`. Every
      index in the table is one of the query indexes. */
  function ListRun(qs: seq<seq<UserLine>>): (r: ListState)
    ensures Tracked(r) && !r.halted
  {
    if qs == [] then ListState(map[], "", false)
    else
      var m := |qs| - 1;
      QueryRun(ListRun(qs[..m]), qs[m], m + 1).(halted := false)
  }

  // ------------------------------------------------------------ the queries

  /** The query for the user with index `idx`. */
  function UserQuery(idx: nat): string {
    "getconfig -g cfgUserAdmin -i " + Decimal(idx)
  }

  /** The classified output of the `q`-th query (index `q + 1`), issued as call `base + q`. */
  function QueryLines(target: Target, run: Runner, base: nat, q: nat): seq<UserLine> {
    var cmd := Processed(run(base + q, RetLine(UserQuery(q + 1), target, None)));
    ClassifyUserLines(SplitLines(cmd.stdout))
  }

  /** The classified outputs of the sixteen queries. */
  function AllQueries(target: Target, run: Runner, base: nat): (r: seq<seq<UserLine>>)
    ensures |r| == 16
  {
    seq(16, q requires 0 <= q < 16 => QueryLines(target, run, base, q))
  }

  /** The table `list_users` returns. */
  function Listed(target: Target, run: Runner, base: nat): UserTable {
    ListRun(AllQueries(target, run, base)).users
  }

  /** `list_users`: the sixteen queries are calls `base` to `base + 15`. A failed
      query is not skipped: its output is read like any other. */
  method ListUsers(target: Target, run: Runner, base: nat) returns (users: UserTable)
    requires AllParsable(AllQueries(target, run, base))
    ensures users == Listed(target, run, base)
  {
    ghost var qs := AllQueries(target, run, base);
    users := map[];
    var username := "";
    var idx := 1;
    while idx < 17
      invariant 1 <= idx <= 17
      invariant ListState(users, username, false) == ListRun(qs[..idx - 1])
    {
      assert qs[..idx][..idx - 1] == qs[..idx - 1];
      var cmd := ExecuteRet(UserQuery(idx), target, None, run, base + idx - 1);
      assert qs[idx - 1] == QueryLines(target, run, base, idx - 1);
      assert qs[..idx][idx - 1] == qs[idx - 1];
      ghost var after := QueryRun(ListRun(qs[..idx - 1]), qs[idx - 1], idx);
      assert ListRun(qs[..idx]) == after.(halted := false);
      users, username := ReadQuery(users, username, SplitLines(cmd.stdout), idx);
      idx := idx + 1;
    }
    assert qs[..16] == qs;
  }

  /** The inner loop of `list_users` over one query's output lines. */
  method ReadQuery(users0: UserTable, username0: string, lines: seq<string>, idx: nat)
    returns (users: UserTable, username: string)
    requires Tracked(ListState(users0, username0, false))
    requires QueryParsable(ClassifyUserLines(lines))
    ensures var r := QueryRun(ListState(users0, username0, false), ClassifyUserLines(lines), idx);
            users == r.users && username == r.current
  {
    ghost var st0 := ListState(users0, username0, false);
    ghost var ks := ClassifyUserLines(lines);
    users, username := users0, username0;
    var i := 0;
    while i < |lines|
      invariant 0 <= i <= |lines|
      invariant QueryParsable(ks[..i]) && StopLine !in ks[..i]
      invariant ListState(users, username, false) == QueryRun(st0, ks[..i], idx)
    {
      QueryRunNext(st0, ks, i, idx);
      var stop;
      users, username, stop := ReadLine(users, username, lines[i], idx);
      if stop {
        StopEndsQuery(st0, ks, i, idx);
        break;
      }
      i := i + 1;
    }
    assert ks[..|lines|] == ks;
  }

  /** One more line of a query: the run over `ks[..i + 1]` is one `LineStep`
      after the run over `ks[..i]`. */
  lemma QueryRunNext(st0: ListState, ks: seq<UserLine>, i: nat, idx: nat)
    requires Tracked(st0) && !st0.halted
    requires i < |ks| && QueryParsable(ks) && StopLine !in ks[..i]
    ensures QueryParsable(ks[..i + 1]) && !ks[i].Unsplittable?
    ensures StopLine in ks[..i + 1] <==> ks[i] == StopLine
    ensures QueryRun(st0, ks[..i + 1], idx) == LineStep(QueryRun(st0, ks[..i], idx), ks[i], idx)
  {
    assert ks[..i + 1][..i] == ks[..i];
    assert ks[..i + 1] == ks[..i] + [ks[i]];
    QueryParsablePrefix(ks, i + 1);
  }

  /** A `StopLine` at `i` ends the query: the lines after it change nothing. */
  lemma StopEndsQuery(st0: ListState, ks: seq<UserLine>, i: nat, idx: nat)
    requires Tracked(st0) && !st0.halted
    requires i < |ks| && ks[i] == StopLine
    ensures QueryRun(st0, ks, idx) == QueryRun(st0, ks[..i + 1], idx)
  {
    assert ks[..i + 1][i] == StopLine;
    HaltedRest(st0, ks[..i + 1], ks[i + 1..], idx);
    assert ks[..i + 1] + ks[i + 1..] == ks;
  }

  /** The body of the inner loop for one line `user`; `stop` is the `break`. */
  method ReadLine(users0: UserTable, username0: string, user: string, idx: nat)
    returns (users: UserTable, username: string, stop: bool)
    requires Tracked(ListState(users0, username0, false))
    requires !ClassifyUserLine(user).Unsplittable?
    ensures ListState(users, username, stop) == LineStep(ListState(users0, username0, false), ClassifyUserLine(user), idx)
  {
    users, username, stop := users0, username0, false;
    if !StartsWith(user, "cfg") {
      return;
    }
    var parts := SplitOn(user, '=');
    var key, val := parts[0], parts[1];
    if StartsWith(key, "cfgUserAdminUserName") {
      username := Strip(val);
      if val != "" {
        users := users[username := UserRecord(idx, map[])];
      } else {
        StripEmptyIff(val);
        stop := true;
      }
    } else {
      if |username| > 0 {
        users := users[username := users[username].(attrs := users[username].attrs[key := val])];
      }
    }
  }

  lemma {:induction false} QueryParsablePrefix(ks: seq<UserLine>, m: nat)
    requires QueryParsable(ks) && m <= |ks|
    ensures QueryParsable(ks[..m])
    decreases |ks|
  {
    if m < |ks| {
      var n := |ks| - 1;
      assert ks[..n][..m] == ks[..m];
      QueryParsablePrefix(ks[..n], m);
    } else {
      assert ks[..m] == ks;
    }
  }

  // ---------------------------------------------------------------- properties

  /** After a `StopLine` nothing more of the query is read: whatever follows
      changes nothing. */
  lemma {:induction false} HaltedRest(st: ListState, a: seq<UserLine>, b: seq<UserLine>, idx: nat)
    requires Tracked(st) && !st.halted && StopLine in a
    ensures QueryRun(st, a + b, idx) == QueryRun(st, a, idx)
    decreases |b|
  {
    if b == [] {
      assert a + b == a;
    } else {
      var n := |b| - 1;
      assert (a + b)[..|a| + n] == a + b[..n];
      HaltedRest(st, a, b[..n], idx);
    }
  }

  /** Nor can what follows a `StopLine` make the loop raise, even a line that
      does not split. */
  lemma {:induction false} HaltedParsable(a: seq<UserLine>, b: seq<UserLine>)
    requires QueryParsable(a) && StopLine in a
    ensures QueryParsable(a + b)
    decreases |b|
  {
    if b == [] {
      assert a + b == a;
    } else {
      var n := |b| - 1;
      assert (a + b)[..|a| + n] == a + b[..n];
      HaltedParsable(a, b[..n]);
    }
  }

  /** The line that stops a query also clears the name being read. */
  lemma StopClearsName(st: ListState, a: seq<UserLine>, idx: nat)
    requires Tracked(st) && !st.halted && StopLine !in a
    ensures QueryRun(st, a + [StopLine], idx).current == ""
    ensures QueryRun(st, a + [StopLine], idx).users == QueryRun(st, a, idx).users
  {
    assert (a + [StopLine])[..|a|] == a;
  }

  lemma SnocSplit<T>(a: seq<T>, x: seq<T>, b: seq<T>)
    requires b != []
    ensures (a + x + b)[..|a| + |x| + |b| - 1] == a + x + b[..|b| - 1]
    ensures (a + x + b)[|a| + |x| + |b| - 1] == b[|b| - 1]
  {
  }

  /** A line that does not start with `cfg` is ignored wherever it stands. */
  lemma {:induction false} IgnoredLineSkipped(st: ListState, a: seq<UserLine>, b: seq<UserLine>, idx: nat)
    requires Tracked(st) && !st.halted
    ensures QueryRun(st, a + [Ignored] + b, idx) == QueryRun(st, a + b, idx)
    decreases |b|
  {
    if b == [] {
      assert a + [Ignored] + b == a + [Ignored];
      assert a + b == a;
      assert (a + [Ignored])[..|a|] == a;
    } else {
      var n := |b| - 1;
      SnocSplit(a, [], b);
      assert a + [] + b == a + b && a + [] + b[..n] == a + b[..n];
      SnocSplit(a, [Ignored], b);
      IgnoredLineSkipped(st, a, b[..n], idx);
    }
  }

  /** Line `j` of a query names user `n`: it is a name line with a non-empty
      value whose stripped form is `n`, reached before any `StopLine`. */
  predicate NamedAt(ks: seq<UserLine>, j: int, n: string) {
    0 <= j < |ks| && ks[j] == NameLine(n) && StopLine !in ks[..j]
  }

  ghost predicate NamedIn(ks: seq<UserLine>, n: string) {
    exists j :: NamedAt(ks, j, n)
  }

  lemma NamedInSnoc(ks: seq<UserLine>, n: string)
    requires ks != []
    ensures NamedIn(ks, n) <==>
            NamedIn(ks[..|ks| - 1], n) || NamedAt(ks, |ks| - 1, n)
  {
    var m := |ks| - 1;
    if NamedIn(ks[..m], n) {
      var j :| NamedAt(ks[..m], j, n);
      assert ks[..m][..j] == ks[..j];
      assert NamedAt(ks, j, n);
    }
    if NamedIn(ks, n) {
      var j :| NamedAt(ks, j, n);
      if j < m {
        assert ks[..m][..j] == ks[..j];
        assert NamedAt(ks[..m], j, n);
      }
    }
  }

  /** Within one query: a name is in the table afterwards exactly when it was
      before or the query names it; its index is the query's when the query
      names it and is unchanged otherwise. */
  lemma {:induction false} QueryNames(st: ListState, ks: seq<UserLine>, idx: nat, n: string)
    requires Tracked(st) && !st.halted
    ensures n in QueryRun(st, ks, idx).users <==> n in st.users || NamedIn(ks, n)
    ensures NamedIn(ks, n) ==> QueryRun(st, ks, idx).users[n].index == idx
    ensures n in st.users && !NamedIn(ks, n) ==> QueryRun(st, ks, idx).users[n].index == st.users[n].index
  {
    if ks != [] {
      var m := |ks| - 1;
      QueryNames(st, ks[..m], idx, n);
      NamedInSnoc(ks, n);
      assert StopLine in ks[..m] ==> !NamedAt(ks, m, n);
    }
  }

  /** Every index in the table is one of the query indexes. */
  lemma {:induction false} ListedIndexBounds(qs: seq<seq<UserLine>>, n: string)
    requires n in ListRun(qs).users
    ensures 1 <= ListRun(qs).users[n].index <= |qs|
  {
    var m := |qs| - 1;
    var init := qs[..m];
    QueryNames(ListRun(init), qs[m], m + 1, n);
    if !NamedIn(qs[m], n) {
      ListedIndexBounds(init, n);
    }
  }

  /** The listed users are exactly the names that some query names. */
  lemma {:induction false} ListedNames(qs: seq<seq<UserLine>>, n: string)
    ensures n in ListRun(qs).users <==> exists q :: 0 <= q < |qs| && NamedIn(qs[q], n)
  {
    if qs != [] {
      var m := |qs| - 1;
      var init := qs[..m];
      ListedNames(init, n);
      QueryNames(ListRun(init), qs[m], m + 1, n);
      if exists q :: 0 <= q < |init| && NamedIn(init[q], n) {
        var q :| 0 <= q < |init| && NamedIn(init[q], n);
        assert qs[q] == init[q];
      }
      if exists q :: 0 <= q < |qs| && NamedIn(qs[q], n) {
        var q :| 0 <= q < |qs| && NamedIn(qs[q], n);
        if q < m {
          assert init[q] == qs[q];
        }
      }
    }
  }

  /** A listed user's index is that of the last query naming it: a later
      query that names the same user replaces the earlier entry. */
  lemma {:induction false} ListedIndex(qs: seq<seq<UserLine>>, n: string)
    requires n in ListRun(qs).users
    ensures var i := ListRun(qs).users[n].index;
            1 <= i <= |qs| && NamedIn(qs[i - 1], n)
            && forall q :: i <= q < |qs| ==> !NamedIn(qs[q], n)
  {
    var m := |qs| - 1;
    var init := qs[..m];
    QueryNames(ListRun(init), qs[m], m + 1, n);
    if !NamedIn(qs[m], n) {
      ListedIndex(init, n);
      var i := ListRun(init).users[n].index;
      assert qs[i - 1] == init[i - 1];
      forall q | i <= q < |qs| ensures !NamedIn(qs[q], n) {
        if q < m {
          assert qs[q] == init[q];
        }
      }
    }
  }

  /** The attributes a run of attribute lines sets, the last one for a key winning. */
  function AttrsOf(b: seq<UserLine>): map<string, string> {
    if b == [] then map[]
    else
      var n := |b| - 1;
      if b[n].AttrLine? then AttrsOf(b[..n])[b[n].key := b[n].val] else AttrsOf(b[..n])
  }

  predicate NoNameLines(b: seq<UserLine>) {
    forall i :: 0 <= i < |b| ==> b[i].Ignored? || b[i].AttrLine?
  }

  /** The `cfg` lines after a name line, up to the next name line, are the
      attributes of that user, with keys and values as written. */
  lemma {:induction false} AttrsFollowName(st: ListState, a: seq<UserLine>, name: string, b: seq<UserLine>, idx: nat)
    requires Tracked(st) && !st.halted && StopLine !in a
    requires name != "" && NoNameLines(b)
    ensures var r := QueryRun(st, a + [NameLine(name)] + b, idx);
            r.current == name && r.users[name] == UserRecord(idx, AttrsOf(b))
    decreases |b|
  {
    var p := a + [NameLine(name)];
    assert p[..|a|] == a;
    if b == [] {
      assert p + b == p;
    } else {
      var n := |b| - 1;
      assert (p + b)[..|p| + n] == p + b[..n];
      AttrsFollowName(st, a, name, b[..n], idx);
      assert StopLine !in p + b[..n] by {
        assert forall i :: 0 <= i < |b[..n]| ==> b[..n][i] == b[i];
      }
    }
  }
}
