# dracr: a verified model of the Dell `racadm` wrapper

`salt/modules/dracr.py` drives Dell's `racadm` tool, locally or against a remote
DRAC or CMC. Every operation builds a `racadm` command line, runs it through the
host framework's command runner and interprets the result. This project models
the deterministic part of that file in Dafny and proves properties about it:

- **the dispatchers** `__execute_cmd` and `__execute_ret`
  - their `-a` / `-m` scope switch
  - the local and remote command lines
  - the filter that strips `Security Alert`, `Continuing execution` and blank lines from a successful command's stdout
- **the output parsers**
  - `__parse_drac` (sections of `key=value` entries), with `system_info`, `get_chassis_name` and `get_chassis_location` built on it
  - the sixteen-query loop of `list_users`
  - the tagged blocks of `inventory`
  - the slot table of `list_slotnames` / `get_slotname`
  - the power-state classifier of `server_powerstatus`
- **the command builders** of `set_niccfg`, `nameservers` (at most two servers, stop at the first failure) and `set_slotname` (name cut to 14 characters)
- **user management**
  - the privilege mask of `set_permissions`
  - the uid lookup of `delete_user` and `change_password`
  - the duplicate check, uid choice and four-step sequence with rollback of `create_user`

Running a command is an oracle. A `Runner` maps the ordinal of a call within one
operation, and the command line, to the `CmdResult` (exit status and stdout)
that call produced. So every statement about an operation says which command
lines it issues, in which order, and what it makes of their results.

Each module follows the same pattern:

- Each parser loop is a `method` with a `while` loop. It is proved equal to a fold over the classified output lines (`Run`), and the parser's properties are lemmas about that fold.
- The command sequences of `nameservers` and `create_user` are methods with early returns. They are proved against `Attempted` / `Issued`, which give the command lines issued, and `FirstFailure`, which gives the first step that fails.
- Python runtime behaviour the code relies on is written out in module `Strings`: `str.strip`, `str.splitlines`, `'\n'.join`, `str.split(sep)`, `str.split()`, `re.split('  +', ...)`, ASCII `str.lower`, `str(n)` and `'{:08X}'`.

Modules:

| File | Module | Contents |
|---|---|---|
| `strings.dfy` | `Strings` | The Python text primitives listed above. |
| `racadm.dfy` | `Racadm` | The dispatchers, the stdout filter, and the first-failure bookkeeping of command sequences. |
| `drac.dfy` | `Drac` | `__parse_drac`, `system_info`, `get_chassis_name`, `get_chassis_location`. |
| `users.dfy` | `Users` | `list_users`. |
| `accounts.dfy` | `Accounts` | `set_permissions`, `change_password`, `delete_user`, `create_user`. |
| `inventory.dfy` | `Inventory` | `inventory`. |
| `slots.dfy` | `Slots` | `list_slotnames`, `get_slotname`, `set_slotname`. |
| `network.dfy` | `Network` | `set_niccfg`, `nameservers`. |
| `power.dfy` | `Power` | `server_powerstatus`. |

A privilege name repeated in `set_permissions`' list adds its bit again
(dracr.py:596-600), so `drac,login,login` gives `0x00000004`;
`Accounts.DuplicatesAdd` proves this.

## Model

| member | source | states |
|---|---|---|
| Strings.LStrip | salt/modules/dracr.py:46 | The leading-strip keeps no more than its input, its result does not start with white space, and everything it removed is white space. |
| Strings.RStrip | salt/modules/dracr.py:40 | The trailing-strip keeps no more than its input, its result does not end with white space, and everything it removed is white space. |
| Strings.LStripSuffix | salt/modules/dracr.py:46 | What the leading strip keeps is a suffix of the input. |
| Strings.RStripPrefix | salt/modules/dracr.py:40 | What `rstrip` keeps is a prefix of the input. |
| Strings.RStripEmptyIff | salt/modules/dracr.py:40 | `len(i.rstrip()) > 0` holds exactly when the line has a non-white-space character. |
| Strings.StripEmptyIff | salt/modules/dracr.py:125 | `len(l.strip()) == 0` holds exactly when the line is all white space. |
| Strings.StripNoOp | salt/modules/dracr.py:43 | A string without surrounding white space is its own `strip()`. |
| Strings.DropLast | salt/modules/dracr.py:46 | `s[:-1]` is a prefix of `s` that is one character shorter, or empty for the empty string. |
| Strings.SplitLines | salt/modules/dracr.py:39 | No line `splitlines()` yields holds a line break. |
| Strings.SplitLinesJoin | salt/modules/dracr.py:128 | `'\n'.join` then `splitlines()` gives the lines back when none holds a break and the last is not empty. |
| Strings.FirstIndex | salt/modules/dracr.py:65 | `module.index('_')` is the first position holding `_`. |
| Strings.JoinSplitOn | salt/modules/dracr.py:596 | Joining the pieces of `split(c)` with `c` gives the text back. |
| Strings.SplitOnConcat | salt/modules/dracr.py:596 | A separator splits the pieces on its two sides apart: `split` of `a + c + b` is `split(a) + split(b)`. |
| Strings.SplitOnNoSep | salt/modules/dracr.py:596 | A text without the separator splits into itself alone. |
| Strings.SplitWs | salt/modules/dracr.py:877 | The fields of `split()` are non-empty and hold no white space. |
| Strings.SplitWsNonEmpty | salt/modules/dracr.py:877 | A line that is not blank has at least one field, so `fields[0]` exists. |
| Strings.SplitRuns | salt/modules/dracr.py:1072 | `re.split('  +', s)` yields at least one piece. |
| Strings.SplitRunsNoDoubleSpace | salt/modules/dracr.py:1072 | No piece of `re.split('  +', s)` holds two adjacent spaces. |
| Strings.Lower | salt/modules/dracr.py:65 | `lower()` keeps the length, lower-cases each character and leaves no upper-case ASCII letter. |
| Strings.LowerIdempotent | salt/modules/dracr.py:65 | Lower-casing twice is lower-casing once. |
| Strings.DecimalNoSpace | salt/modules/dracr.py:255 | The decimal rendering of an index holds no space. |
| Strings.DigitsValue | salt/modules/dracr.py:603 | The digits of `n` in base `b` read back as `n`. |
| Strings.Hex08Spec | salt/modules/dracr.py:603 | `{:08X}` gives upper-case hex digits that read back as the number: exactly eight below 2^32, and from 2^32 on no leading zero. |
| Racadm.ModSwitchCmdAll | salt/modules/dracr.py:63-65 | In `__execute_cmd` a module starting `ALL_` becomes `-a ` and the lower-cased text after the first `_`. |
| Racadm.ModSwitchCmdOther | salt/modules/dracr.py:59-69 | Any other module becomes `-m <module>`; a missing or empty module gives no switch. |
| Racadm.ModSwitchSentinels | salt/modules/dracr.py:96-102 | `__execute_ret` understands only `ALL` and `__execute_cmd` only `ALL_<kind>`: each passes the other's sentinel on as `-m`. |
| Racadm.AllServerCmd | salt/modules/dracr.py:63-65 | `ALL_SERVER` selects every server: `-a server`. |
| Racadm.CommandLineShape | salt/modules/dracr.py:70-80 | The remote line is the local one with `-r host -u user -p pw` inserted after `racadm`; without a host the credentials are not used. |
| Racadm.ExecuteCmd | salt/modules/dracr.py:82-87 | `__execute_cmd` is true exactly when the command line it runs exits with 0. |
| Racadm.ExecuteRet | salt/modules/dracr.py:115-130 | `__execute_ret` keeps the exit status, and filters the stdout only when the status is 0. |
| Racadm.FilterNext | salt/modules/dracr.py:120-127 | Each pass of the filter loop appends the line exactly when it is not noise. |
| Racadm.KeptLinesAppend | salt/modules/dracr.py:120-128 | The filter keeps the original order: it distributes over concatenation. |
| Racadm.KeptLinesMember | salt/modules/dracr.py:120-127 | A line is kept exactly when it is an input line that neither starts with `Security Alert` or `Continuing execution` nor is blank. |
| Racadm.KeptLinesIdempotent | salt/modules/dracr.py:120-127 | Filtering the kept lines again changes nothing. |
| Racadm.KeptLinesAreClean | salt/modules/dracr.py:120-127 | Every kept line is an input line and is not noise. |
| Racadm.NotNoiseNotBlank | salt/modules/dracr.py:125 | A kept line is not blank. |
| Racadm.CleanStdoutLines | salt/modules/dracr.py:128 | The lines of the cleaned stdout are exactly the kept lines. |
| Racadm.CleanStdoutIdempotent | salt/modules/dracr.py:119-128 | Cleaning an already cleaned stdout gives the same text. |
| Racadm.ProcessedIdempotent | salt/modules/dracr.py:115-130 | The clean-up keeps the exit status, leaves a failed result untouched, and applied twice equals applied once. |
| Racadm.FirstFailure | salt/modules/dracr.py:253-260 | The first failing step lies between the starting step and the end of the sequence. |
| Racadm.FirstFailureSpec | salt/modules/dracr.py:253-260 | Every step before the first failure succeeds, and that step, when there is one, fails. |
| Racadm.AttemptedSpec | salt/modules/dracr.py:253-260 | The commands attempted are the steps up to and including the first failure, or all steps; later ones are never issued. |
| Racadm.AllSucceedSpec | salt/modules/dracr.py:253-262 | Every step succeeds exactly when there is no first failure. |
| Drac.Run | salt/modules/dracr.py:36-50 | After any parsable output, the open section is the name of the last header, the empty name is never a section, and the open section is a key exactly when it is not empty. |
| Drac.ParseDrac | salt/modules/dracr.py:32-50 | The `__parse_drac` loop returns the fold of the classified lines. |
| Drac.ReadLine | salt/modules/dracr.py:40-48 | One pass of the loop body is one step of the fold on the line's classification. |
| Drac.RunNext | salt/modules/dracr.py:39-48 | Reading line `i` takes the parser from its state after `i` lines to its state after `i + 1`. |
| Drac.ClassifyPair | salt/modules/dracr.py:40-44 | `key=value` with one `=` is an entry with the stripped key and value. |
| Drac.ClassifyHeader | salt/modules/dracr.py:45-46 | A line without `=` names the section given by the stripped line without its last character. |
| Drac.ClassifyBlank | salt/modules/dracr.py:45-46 | A blank line names the empty section. |
| Drac.StepSections | salt/modules/dracr.py:45-48 | A line adds at most the non-empty section its header names. |
| Drac.SectionsAreHeaders | salt/modules/dracr.py:45-48 | The sections are exactly the non-empty names of the header lines. |
| Drac.StepKeys | salt/modules/dracr.py:41-44 | A line adds at most its own key, and only to the open section. |
| Drac.KeysAreOwned | salt/modules/dracr.py:40-44 | A key is in a section exactly when some entry was read while that section was open. |
| Drac.SectionOwnedIsOpen | salt/modules/dracr.py:41-48 | The section of a merged entry is a section of the result. |
| Drac.SectionAfterIsHeader | salt/modules/dracr.py:46 | A non-empty open section was named by one of the lines read. |
| Drac.StepValue | salt/modules/dracr.py:41-44 | A line changes a value only under the key it sets in the open section. |
| Drac.LastEntryWins | salt/modules/dracr.py:41-44 | Within a section the last entry with a key decides its value; a later duplicate overwrites. |
| Drac.LastOwner | salt/modules/dracr.py:41-44 | Every key of a section has a last entry, and its value is that entry's. |
| Drac.OrphanEntryIgnored | salt/modules/dracr.py:40-41 | An entry read while no section is open, before any header or after a blank line, is dropped. |
| Drac.ReopenKeeps | salt/modules/dracr.py:46-48 | Repeating an existing section's header re-opens it and keeps its entries. |
| Drac.SystemInfo | salt/modules/dracr.py:145-155 | `system_info` returns the failed result exactly when the status is not 0, and otherwise the parsed sections. |
| Drac.SystemInfoOf | salt/modules/dracr.py:145-155 | The method runs `getsysinfo` once and returns what `SystemInfo` gives for its result. |
| Drac.ChassisName | salt/modules/dracr.py:1008-1010 | The chassis name is the value of the last `Chassis Name` entry read while `Chassis Information` was open. |
| Drac.ChassisLocation | salt/modules/dracr.py:1148-1151 | The chassis location is the value of the last `Chassis Location` entry read while `Chassis Information` was open. |
| Users.QueryRun | salt/modules/dracr.py:350-365 | Reading a query's lines stops exactly when a name line with an empty value was met, and the current name is always in the table. |
| Users.ListRun | salt/modules/dracr.py:340-365 | After the queries the current name is always in the table. |
| Users.ListUsers | salt/modules/dracr.py:337-367 | `list_users` runs queries 1 to 16 in turn and returns the fold of their classified lines; a failed query is read like any other. |
| Users.ReadQuery | salt/modules/dracr.py:350-365 | The inner loop over one query's lines returns that query's fold, `break` included. |
| Users.QueryRunNext | salt/modules/dracr.py:350-365 | One more line before any stop is one step of the fold. |
| Users.StopEndsQuery | salt/modules/dracr.py:359-362 | The lines after a stop line change nothing. |
| Users.ReadLine | salt/modules/dracr.py:351-365 | One pass of the inner loop body is one step of the fold; `stop` is the `break`. |
| Users.HaltedRest | salt/modules/dracr.py:362 | After a stop line nothing more of the query is read. |
| Users.HaltedParsable | salt/modules/dracr.py:354-362 | A line after a stop line cannot make the loop raise, even one that does not split. |
| Users.StopClearsName | salt/modules/dracr.py:357-362 | The stop line clears the current name and adds no user. |
| Users.IgnoredLineSkipped | salt/modules/dracr.py:351-352 | A line not starting with `cfg` is ignored wherever it stands. |
| Users.QueryNames | salt/modules/dracr.py:356-360 | After a query a name is listed exactly when it was before or the query names it; its index is that query's index when the query names it, and is otherwise unchanged. |
| Users.ListedIndexBounds | salt/modules/dracr.py:340-360 | Every listed index is one of 1..16. |
| Users.ListedNames | salt/modules/dracr.py:356-360 | The listed users are exactly the names some query names. |
| Users.ListedIndex | salt/modules/dracr.py:356-360 | A listed user's index is that of the last query naming it; a later query replaces an earlier entry. |
| Users.AttrsFollowName | salt/modules/dracr.py:363-365 | The `cfg` lines after a name line are that user's attributes, with key and value as written and the last one winning. |
| Accounts.PermissionMask | salt/modules/dracr.py:588-600 | The mask loop gives `Mask`, the sum of the table values of the stripped comma-separated names. |
| Accounts.AddPrivilege | salt/modules/dracr.py:597-600 | A name in the table adds its bit; any other adds nothing. |
| Accounts.MaskStep | salt/modules/dracr.py:596-600 | Each comma-separated part adds the value of its stripped name. |
| Accounts.MaskWhole | salt/modules/dracr.py:596-600 | The sum over all parts is the mask. |
| Accounts.SumPermutation | salt/modules/dracr.py:596-600 | The order of the names does not change the sum. |
| Accounts.MaskOfPermutation | salt/modules/dracr.py:596-600 | Any rearrangement of the names gives the same mask. |
| Accounts.MaskConcat | salt/modules/dracr.py:596-600 | The mask of `a,b` is the mask of `a` plus the mask of `b`. |
| Accounts.MaskSingle | salt/modules/dracr.py:596-600 | A single name counts the value of its stripped form. |
| Accounts.UnknownAddsNothing | salt/modules/dracr.py:599-600 | A name the table lacks adds nothing. |
| Accounts.DuplicatesAdd | salt/modules/dracr.py:599-600 | A repeated name is added twice, so `login,login` gives 2, not 1. |
| Accounts.PrivilegeArgSpec | salt/modules/dracr.py:603 | The argument is `0x` and upper-case hex digits that read back as the mask: ten characters for a mask below 2^32, and from 2^32 on no leading zero. |
| Accounts.DescFreeMembers | salt/modules/dracr.py:521 | The list holds exactly the uids of 2..11 that no user has. |
| Accounts.DescFreeSorted | salt/modules/dracr.py:521 | The list is strictly descending, as `sorted(..., reverse=True)` leaves it. |
| Accounts.DescFreeLast | salt/modules/dracr.py:521 | Its last element is the smallest free uid. |
| Accounts.ChooseUid | salt/modules/dracr.py:518-521 | The new uid is free, lies in 2..11, and every uid from 2 below it is taken. |
| Accounts.SetPermissionsOf | salt/modules/dracr.py:596-606 | The command sets privilege `0x{mask:08X}` for the uid and succeeds exactly when it exits with 0. |
| Accounts.SetPermissions | salt/modules/dracr.py:591-606 | Without a uid the index comes from a local `list_users`; the privilege command then follows those sixteen queries. |
| Accounts.ChangePasswordOf | salt/modules/dracr.py:426-434 | A uid of 0 issues nothing and fails; otherwise the result is that of the password command. |
| Accounts.ChangePassword | salt/modules/dracr.py:421-434 | Without a uid the index comes from `list_users` on the same target. |
| Accounts.DeleteUserOf | salt/modules/dracr.py:389-397 | A uid of 0 issues nothing and fails; otherwise the result is that of setting the name to `""`. |
| Accounts.DeleteUser | salt/modules/dracr.py:385-397 | Without a uid the index comes from a local `list_users`. |
| Accounts.CreateSteps | salt/modules/dracr.py:523-548 | `create_user` has exactly four steps. |
| Accounts.IssuedAttempted | salt/modules/dracr.py:523-550 | The commands issued are those attempted, followed by the rollback when a step failed. |
| Accounts.IssuedSpec | salt/modules/dracr.py:523-550 | The commands issued are the steps up to and including the first failure and then the rollback, or all steps. |
| Accounts.IssuedNext | salt/modules/dracr.py:523-550 | A failing step issues itself and the rollback; a succeeding one passes on to the next. |
| Accounts.SetNameStep | salt/modules/dracr.py:524-530 | From step 1: true exactly when no step fails, and the issued commands follow `Issued`. |
| Accounts.SetPermissionsStep | salt/modules/dracr.py:533-536 | From step 2: true exactly when no later step fails, and the issued commands follow `Issued`. |
| Accounts.SetPasswordStep | salt/modules/dracr.py:539-542 | From step 3: true exactly when no later step fails, and the issued commands follow `Issued`. |
| Accounts.EnableStep | salt/modules/dracr.py:545-550 | Step 4: true exactly when it succeeds; a failure is followed by the rollback. |
| Accounts.AddUser | salt/modules/dracr.py:523-550 | True exactly when all four steps succeed; the commands issued stop at the first failure, which is followed by deleting the uid. |
| Accounts.CreateWithTable | salt/modules/dracr.py:514-550 | An existing name issues nothing and fails; otherwise the smallest free uid is used for the four steps with rollback. |
| Accounts.CreateUser | salt/modules/dracr.py:509-550 | Without a table the users are listed locally first (calls 0 to 15); then the duplicate check, the uid choice and the steps. |
| Inventory.FieldNames | salt/modules/dracr.py:1017-1022 | Every block has at least three field names, the first of them `name`. |
| Inventory.ClassifyRow | salt/modules/dracr.py:1041-1072 | A line that is neither a tag nor empty is a row with at least one field. |
| Inventory.WithTable | salt/modules/dracr.py:1074-1089 | Storing into one block's table leaves the other three tables as they were. |
| Inventory.InventoryOf | salt/modules/dracr.py:1024-1029 | The result is the failed result exactly when the status is not 0. |
| Inventory.ReadInventory | salt/modules/dracr.py:1024-1091 | The loop with the four flags returns the fold of the classified lines of the cleaned output. |
| Inventory.RunNext | salt/modules/dracr.py:1040-1089 | One more line is one step of the fold. |
| Inventory.ReadRow | salt/modules/dracr.py:1041-1089 | One pass of the loop body is one fold step, and afterwards exactly the open block's flag is set. |
| Inventory.StoreRow | salt/modules/dracr.py:1074-1089 | The four `if in_<block>` statements store the row in the open block's table only. |
| Inventory.ZipPrefixKeys | salt/modules/dracr.py:1075-1077 | A record's keys are exactly the field names of the columns it has. |
| Inventory.ZipPrefixValue | salt/modules/dracr.py:1075-1077 | A field name that does not come again takes its own column's value. |
| Inventory.RecordOfRow | salt/modules/dracr.py:1075-1077 | A row's record has the first field under `name`, only the block's field names, and at most as many entries as the block has field names. |
| Inventory.RunNamedRecords | salt/modules/dracr.py:1074-1089 | Every stored record's `name` equals its key, and holds only its block's field names. |
| Inventory.RunOpen | salt/modules/dracr.py:1041-1067 | The open block is the one the last tag named. |
| Inventory.StepTable | salt/modules/dracr.py:1074-1089 | A line adds to a table at most the first field of a row read while that block is open, and changes no other record. |
| Inventory.KeysAreStoredRows | salt/modules/dracr.py:1074-1089 | A table has a key exactly when a row with that first field was read while its block was open. |
| Inventory.LastRowWins | salt/modules/dracr.py:1074-1089 | The last row stored under a key decides its record. |
| Inventory.EmptyLineIgnored | salt/modules/dracr.py:1069-1070 | An empty line changes nothing. |
| Inventory.UntaggedRowsIgnored | salt/modules/dracr.py:1031-1039 | Rows before the first tag are dropped: the four tables stay empty. |
| Slots.Run | salt/modules/dracr.py:870-876 | The header is skipped exactly until a line starting with `<` comes. |
| Slots.ParseSlots | salt/modules/dracr.py:869-889 | The `list_slotnames` loop returns the fold of the classified lines. |
| Slots.ReadSlotLine | salt/modules/dracr.py:872-887 | One pass of the loop body is one step of the fold. |
| Slots.RunNext | salt/modules/dracr.py:871-887 | One more line is one step of the fold. |
| Slots.CleanedParsable | salt/modules/dracr.py:877-878 | After the clean-up every row has a field, so `fields[0]` never raises. |
| Slots.ListSlotnames | salt/modules/dracr.py:867-868 | A non-zero status returns the raw result, and only then. |
| Slots.ListSlotnamesOf | salt/modules/dracr.py:863-889 | The method runs `getslotname` once and returns what `ListSlotnames` gives for its result. |
| Slots.GetSlotname | salt/modules/dracr.py:916-918 | The record returned is that of the requested slot. |
| Slots.RunSlotKeys | salt/modules/dracr.py:878-879 | Every record is stored under its own `slot` field. |
| Slots.NoMarkerNoSlots | salt/modules/dracr.py:870-876 | Without a line starting with `<` the whole output is header, so there are no slots. |
| Slots.StepSlots | salt/modules/dracr.py:872-887 | A line adds at most the first field of a row read after the header, and changes no other record. |
| Slots.KeysAreStoredRows | salt/modules/dracr.py:872-887 | A slot is listed exactly when a row after a `<` line starts with it; later `<` lines are skipped. |
| Slots.LastRowWins | salt/modules/dracr.py:877-887 | The last row for a slot gives its record: `slotname` and `hostname` are the second and third fields or `''`, and further fields are ignored. |
| Slots.Truncated | salt/modules/dracr.py:950 | `name[0:14]` has at most 14 characters, is a prefix of the name, and is the whole name when it is short enough. |
| Slots.SlotnameLineLocal | salt/modules/dracr.py:949-952 | The line is always the local `racadm setslotname -i <slot> <name>`, whatever the target. |
| Slots.SetSlotname | salt/modules/dracr.py:949-952 | True exactly when the local command succeeds. |
| Network.NicCfgDecode | salt/modules/dracr.py:164-169 | The static form reads back as address, netmask and gateway, and the DHCP form is not static. |
| Network.SetNicCfg | salt/modules/dracr.py:164-174 | True exactly when `setniccfg` exits with 0. |
| Network.DnsCommandDecode | salt/modules/dracr.py:254-255 | The command reads back as the server number and the server. |
| Network.DnsLines | salt/modules/dracr.py:253-255 | There is one command line per server. |
| Network.Nameservers | salt/modules/dracr.py:249-262 | More than two servers are refused before any command runs; otherwise true exactly when every server is set, and the commands issued stop at the first failure. |
| Power.Classify | salt/modules/dracr.py:799-810 | The status is 0; `ON` gives on; `OFF` or an `ERROR` message gives off; a comment exactly when there is a status; an error message is its own comment. |
| Power.OffSaysOn | salt/modules/dracr.py:803-805 | `OFF` reports off but carries the comment `Power is on`. |
| Power.ServerPowerstatus | salt/modules/dracr.py:794-810 | The report classifies the stdout that `__execute_ret` hands back. |
| Power.NoiseAroundOn | salt/modules/dracr.py:800-802 | Noise lines around `ON` do not hide it. |

## Left out

- `__virtual__`, logging, and the running of `racadm` are not modelled. Running a command is the `Runner` oracle. The tool's own behaviour and credential handling are external.
- These operations format one command and return `__execute_cmd`'s verdict on it. They are left out because `Racadm.ExecuteCmd` and `Racadm.CommandLineShape` already state what that call does:
  - `set_nicvlan`, `email_alerts`, `deploy_password`, `deploy_snmp`, `set_snmp`, `set_network`
  - `server_reboot`, `server_poweroff`, `server_poweron`, `server_hardreset`
  - `set_chassis_name`, `set_chassis_location`, and `set_general` with `set_chassis_datacenter`, which calls it
- Two operations issue two commands through `__execute_cmd`. They are left out as further instances of the early-return sequences modelled for `nameservers` and `create_user`:
  - `syslog` (dracr.py:279-296): when enabling, it sets the syslog-enable flag on the host without the module scope and, if that succeeds, sets the server in the module's scope. Otherwise (disabling, or the enable command failing) it issues the disable command.
  - `server_pxe` (dracr.py:825-837): it sets the first boot device to PXE, then boot-once. A failure at either step gives `False`; success returns the function `server_reboot` instead of calling it.
- `get_general` (dracr.py:1221-1231), and `get_chassis_datacenter`, which calls it, are left out. They run one `getconfig` query through `__execute_ret` and return its stdout when the exit status is 0, else the whole result. `Racadm.ExecuteRet` states that query's result.
- `network_info` (dracr.py:196-229) is left out. It runs `inventory` and returns a `No switch` result with status -1 when the module is not among the switches. Otherwise it runs `getniccfg`, puts a `Network:` section header and a `Device = <module>` line in front of its stdout, whatever the exit status, and returns `__parse_drac` of that text. The parser is `Drac.ParseDrac`.
- Some source defects are outside the modelled core and are only noted here:
  - `set_network` hands the target to `str.format`, so it always runs locally.
  - The disable path of `email_alerts` drops the host.
- The same defect inside the core is modelled as written: `set_slotname` always runs locally (`Slots.SlotnameLineLocal`). It also cuts the name to 14 characters although its documentation says 15.
- `Power.Classify` keeps the source's comment `Power is on` for `OFF` (`Power.OffSaysOn`).
- Crash paths are preconditions. The model does not describe the exception raised; it requires the callers to avoid it:
  - an entry with more than one `=` inside an open section (`Drac.Parsable`)
  - a `cfg` line without exactly one `=` (`Users.QueryParsable`)
  - `user[username]` for an unknown user
  - `pop()` on an empty free-uid list (`Accounts.HasFreeUid`)
  - a failed `system_info` or a missing entry in `get_chassis_name` and `get_chassis_location`
  - an unknown slot in `get_slotname`
  - a missing address, netmask or gateway in the static `setniccfg` form
- The privilege table's hexadecimal strings are modelled by the numbers `int(..., 16)` gives. The dictionary is an ordered list of distinct names.
- `Inventory.ReadInventory` pairs field names with columns as the `map` imported from `six.moves` does: it stops at the shorter of the two lists.
- Slots.GetSlotname states only that the record is the requested slot's. Which row supplies that record is stated by `Slots.LastRowWins`.
- Accounts.CreateSteps states only that there are four steps. Their command lines are the ones the body lists. Their effect on the result is stated by `Accounts.AddUser` and `Accounts.IssuedSpec`.
- `Strings.Lower` lower-cases ASCII letters only. `str.lower` on other Unicode letters is not modelled.
- The `{0}` rendering of a `None` credential is the text `None`, as Python prints it.
