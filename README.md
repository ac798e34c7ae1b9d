# dcos-valkiria `tasks` command: target resolver and row builder

The valkiria plugin of the DC/OS CLI lists the tasks running on a set of
agents. It takes an `--ips` argument. It resolves that argument into a
list of IPv4 addresses (`_get_ips_list`, with `_valid_ip_format` doing the
per-address check). Then it fills an `Ip` / `TaskId` table with one row
per task found on each address (`_tasks`). This project models those two
parts and proves what they do.

- `StrOps` (strops.dfy) models the Python string operations the resolver
  calls, on `seq<char>`:
  - `replace(" ", "")`;
  - `split` with a one-character separator;
  - `strip`;
  - `isdigit`, and `int` on a string of digits.

  It also defines `join`, which the resolver does not call. `join` is used
  to state the round trips of `split`, and to rejoin a resolved list with
  commas and resolve it again (`Idempotent`).
- `TargetResolver` (resolver.dfy) models the resolver:
  - `Resolve` is the reference definition;
  - `GetIpsList` is the loop of `_get_ips_list`, proved equal to `Resolve`
    and returning the diagnostics it publishes.
- `TargetResolverExamples` (resolver_examples.dfy) works out concrete
  arguments, among them every call in `tests/unit/test_cli.py`.
- `TaskRows` (tasks.dfy) models the row builder of `_tasks`. The table is a
  class, `TaskTable`, whose methods add rows. The rows each address
  contributes are each proved equal to a function of the parsed reply.

What the model follows is the code, at these points where the unit tests
expect something else:

- Only the space character is deleted before splitting on commas. So
  addresses separated by a space fuse into one token, and that token is
  rejected. The tests at lines 12, 13 and 17 expect the addresses to be
  separated.
- `333` is not below 256, so `333.200.1.21` is rejected. The test at
  line 14 expects it to be returned.

Two more points about what the code does:

- Every accepted token is returned, duplicates included.
- Tabs and newlines are not deleted. They stay in the returned token;
  `_valid_ip_format` strips them only for its check.

## Model

| member | source | states |
|---|---|---|
| StrOps.Delete | dcos_valkiria/cli.py:180 | `replace(" ", "")`: the result holds no occurrence of the character, is shorter by exactly its count, and is unchanged when the character does not occur |
| StrOps.DeleteCount | dcos_valkiria/cli.py:180 | deleting one character leaves the count of every other character unchanged |
| StrOps.DeleteAppend | dcos_valkiria/cli.py:180 | deleting distributes over concatenation, so order is kept |
| StrOps.CountAppend | dcos_valkiria/cli.py:180 | the count of a character in a concatenation is the sum of the counts |
| StrOps.Split | dcos_valkiria/cli.py:180 | `split` always yields at least one piece |
| StrOps.SplitCount | dcos_valkiria/cli.py:180 | `split` yields exactly one piece more than there are separators |
| StrOps.SplitPieces | dcos_valkiria/cli.py:180 | no piece of a split holds the separator |
| StrOps.SplitAvoids | dcos_valkiria/cli.py:180 | no piece holds a character the whole string lacks |
| StrOps.JoinSplit | dcos_valkiria/cli.py:180 | joining the pieces with the separator gives back the string |
| StrOps.SplitJoin | dcos_valkiria/cli.py:180 | splitting a join of separator-free parts gives back exactly those parts |
| StrOps.SplitWhole | dcos_valkiria/cli.py:180 | a string without the separator splits into itself alone |
| StrOps.SplitAfter | dcos_valkiria/cli.py:180 | a separator-free prefix ended by the separator is the first piece, and the rest splits on its own |
| StrOps.JoinFront | dcos_valkiria/cli.py:180 | a character put in front of the first part comes out in front of the join |
| StrOps.Join | dcos_valkiria/cli.py:180 | joining a single part gives that part |
| StrOps.JoinAvoids | dcos_valkiria/cli.py:180 | a character in no part, and not the separator, is not in the join |
| StrOps.JoinNonEmpty | dcos_valkiria/cli.py:180 | a join whose first part is non-empty is non-empty |
| StrOps.StripLeft | dcos_valkiria/cli.py:192 | the result does not start with whitespace, and a string that does not start with whitespace is unchanged |
| StrOps.StripRight | dcos_valkiria/cli.py:192 | the result does not end with whitespace, and a string that does not end with whitespace is unchanged |
| StrOps.Strip | dcos_valkiria/cli.py:192 | `strip()` gives a string no longer than its input that neither starts nor ends with whitespace; `StripTrims` states what it removes |
| StrOps.StripLeftDrops | dcos_valkiria/cli.py:192 | stripping on the left removes a prefix, and every character of it is whitespace |
| StrOps.StripRightDrops | dcos_valkiria/cli.py:192 | stripping on the right removes a suffix, and every character of it is whitespace |
| StrOps.StripTrims | dcos_valkiria/cli.py:192 | `strip()` keeps one contiguous slice of the string, in order; everything it removes before and after that slice is whitespace |
| StrOps.StripCount | dcos_valkiria/cli.py:192 | stripping keeps the count of every non-whitespace character |
| StrOps.StripLeftCount | dcos_valkiria/cli.py:192 | stripping on the left keeps the count of every non-whitespace character |
| StrOps.StripRightCount | dcos_valkiria/cli.py:192 | stripping on the right keeps the count of every non-whitespace character |
| StrOps.Decimal | dcos_valkiria/cli.py:196 | every number has a canonical spelling: all digits, no leading zero, and `int` reads it back as the same value |
| StrOps.LeadingZero | dcos_valkiria/cli.py:196 | `int` ignores a leading zero |
| TargetResolver.Octets | dcos_valkiria/cli.py:190-199 | an accepted address has four values, each below 256 |
| TargetResolver.ValidIpFormatShape | dcos_valkiria/cli.py:190-199 | an accepted address strips to its four groups joined by dots, so it has exactly three dots and no comma |
| TargetResolver.ValidIpFormatFromGroups | dcos_valkiria/cli.py:190-199 | anything that strips to four digit groups below 256 joined by dots is accepted, and those are its groups |
| TargetResolver.GroupsOf | dcos_valkiria/cli.py:192 | the groups of an address are the dot-free parts its stripped form joins |
| TargetResolver.EmptyRejected | dcos_valkiria/cli.py:190-199 | the empty token is rejected, since it has one group, not four |
| TargetResolver.DottedAccepted | dcos_valkiria/cli.py:190-199 | every dotted quad of values 0 to 255 spelt canonically is accepted and reads back as the same four values |
| TargetResolver.DotCountRejects | dcos_valkiria/cli.py:196 | a token without exactly three dots is rejected |
| TargetResolver.TokensShape | dcos_valkiria/cli.py:180 | there is one token more than there are commas; the tokens joined by commas are the argument minus its spaces; no token holds a space or a comma |
| TargetResolver.TokensOf | dcos_valkiria/cli.py:180 | the tokens of an argument are the comma-free parts its space-free form joins |
| TargetResolver.Select | dcos_valkiria/cli.py:182-186 | a token selection is no longer than its input |
| TargetResolver.SelectVerdict | dcos_valkiria/cli.py:183-184 | every selected token has the selected verdict |
| TargetResolver.SelectMultiset | dcos_valkiria/cli.py:182-186 | a token occurs in the selection as often as in the input when it has the selected verdict, and not at all otherwise |
| TargetResolver.SelectAppend | dcos_valkiria/cli.py:182-186 | the selection of a concatenation is the concatenation of the selections |
| TargetResolver.SelectStep | dcos_valkiria/cli.py:182-186 | one more token extends the accepted list when it passes and the rejected list when it fails, never both |
| TargetResolver.SelectIsSubsequence | dcos_valkiria/cli.py:182-186 | a selection keeps the input order |
| TargetResolver.SelectPair | dcos_valkiria/cli.py:182-186 | of a failing token followed by a passing one, each lands on its own side |
| TargetResolver.Messages | dcos_valkiria/cli.py:186 | one diagnostic per rejected token |
| TargetResolver.MessagesSnoc | dcos_valkiria/cli.py:186 | rejecting one more token publishes its diagnostic after the earlier ones |
| TargetResolver.GetIpsList | dcos_valkiria/cli.py:171-187 | the loop returns the sentinel 1 for an absent or empty argument; otherwise it returns the accepted tokens in input order. Its published diagnostics are the missing-argument message, or one message per rejected token in order. All of this equals `Resolve` and `Published` |
| TargetResolver.MissingIff | dcos_valkiria/cli.py:177-179 | the sentinel 1 comes exactly for an absent or empty argument, with the one `--ips requires argument` diagnostic |
| TargetResolver.ResolvePartition | dcos_valkiria/cli.py:180-187 | for a non-empty argument, every token lands in exactly one of the two lists, verbatim, in input order, duplicates kept, with one diagnostic per rejected token |
| TargetResolver.ResolveJoin | dcos_valkiria/cli.py:180-187 | accepted space-free addresses joined by commas resolve to exactly those addresses, with no diagnostic |
| TargetResolver.AllSelected | dcos_valkiria/cli.py:182-186 | when every token is accepted, all are kept and none rejected |
| TargetResolver.Idempotent | dcos_valkiria/cli.py:171-187 | resolving the comma-joined result again gives the same list and publishes nothing |
| TargetResolver.FuseTokens | dcos_valkiria/cli.py:180 | a space between two comma-free strings does not separate them: they form one token |
| TargetResolver.SingleToken | dcos_valkiria/cli.py:180-187 | a single-token argument resolves by that token's verdict alone, with or without its one diagnostic |
| TargetResolver.SpaceJoinedRejected | dcos_valkiria/cli.py:180-187 | two comma-free strings joined by a space whose dots do not add up to three give one rejected token |
| TargetResolver.SpaceSeparatedFuse | dcos_valkiria/cli.py:180-187 | two valid addresses separated by a space fuse into one rejected token, and nothing is returned |
| TargetResolver.DeleteAroundComma | dcos_valkiria/cli.py:180 | spaces around a comma are deleted |
| TargetResolver.SpaceCommaTokens | dcos_valkiria/cli.py:180 | in `a b , c`, the tokens are the fused pair and `c` |
| TargetResolver.RejectedThenAccepted | dcos_valkiria/cli.py:182-187 | of two tokens, a rejected one then an accepted one, only the second is returned and the first is reported |
| TargetResolver.SpaceCommaThenValid | dcos_valkiria/cli.py:180-187 | in `a b , c` with three valid addresses, the fused pair is rejected and `c` returned |
| TargetResolver.SpaceJoinedCount | dcos_valkiria/cli.py:180 | two space-joined valid addresses fuse into a token with six dots |
| TargetResolver.OnlySpaces | dcos_valkiria/cli.py:177-187 | an argument of spaces only is not missing: it gives one empty token, which is rejected with its diagnostic |
| TargetResolver.OnlySpacesDeleted | dcos_valkiria/cli.py:180 | deleting spaces from a string of spaces leaves nothing |
| TargetResolverExamples.PlainGroups | dcos_valkiria/cli.py:192 | a plain string of dot-free groups joined by dots has those groups and one dot fewer than groups |
| TargetResolverExamples.PlainAccepted | dcos_valkiria/cli.py:190-199 | a plain string of four valid octets joined by dots is accepted |
| TargetResolverExamples.PlainRejected | dcos_valkiria/cli.py:190-199 | a plain string of four groups, one not a valid octet, is rejected |
| TargetResolverExamples.CanonicalOctet | dcos_valkiria/cli.py:196 | a canonical spelling is a valid octet of its value |
| TargetResolverExamples.OneToken | dcos_valkiria/cli.py:180 | a string without spaces or commas is its own single token |
| TargetResolverExamples.NoArgument | tests/unit/test_cli.py:9 | no argument gives the sentinel 1 and one diagnostic |
| TargetResolverExamples.SingleAddress | tests/unit/test_cli.py:10 | `10.200.1.21` is returned as the only address |
| TargetResolverExamples.TwoAddresses | tests/unit/test_cli.py:11 | two comma-separated valid addresses are returned in order |
| TargetResolverExamples.SpaceSeparatedPair | tests/unit/test_cli.py:12 | two space-separated addresses fuse and nothing is returned, although the test expects both |
| TargetResolverExamples.SpaceSeparatedPairThenComma | tests/unit/test_cli.py:13 | only the address after the comma is returned, although the test expects all three |
| TargetResolverExamples.OctetAbove255 | tests/unit/test_cli.py:14 | `333.200.1.21` is rejected, although the test expects it returned |
| TargetResolverExamples.ThreeGroups | tests/unit/test_cli.py:15 | `200.1.21` is rejected |
| TargetResolverExamples.FourDigitGroup | tests/unit/test_cli.py:16 | `1233.200.1.21` is rejected |
| TargetResolverExamples.InvalidThenSpaceThenValid | tests/unit/test_cli.py:17 | the valid second address fuses with the invalid first one and nothing is returned, although the test expects the second |
| TargetResolverExamples.LeadingZerosAccepted | dcos_valkiria/cli.py:196 | `010.1.1.1` is accepted, with the octet 10 |
| TargetResolverExamples.OctetOutOfRange | dcos_valkiria/cli.py:196 | an octet of 256 is rejected |
| TargetResolverExamples.EmptyGroup | dcos_valkiria/cli.py:196 | an empty group is rejected |
| TargetResolverExamples.SurroundingWhitespaceAccepted | dcos_valkiria/cli.py:192 | surrounding whitespace is stripped before the check |
| TargetResolverExamples.OtherWhitespaceKept | dcos_valkiria/cli.py:180-187 | tabs and newlines survive the space removal and stay in the returned addresses |
| TaskRows.EntryRows | dcos_valkiria/cli.py:156-160 | the entries of one type give at most one row each |
| TaskRows.MissCount | dcos_valkiria/cli.py:161-165 | no more misses than types |
| TaskRows.TaskTable.constructor | dcos_valkiria/cli.py:141 | a new table has the header `Ip`, `TaskId` and no rows |
| TaskRows.TaskTable.AddRow | dcos_valkiria/cli.py:158 | `add_row` appends exactly that row |
| TaskRows.TaskTable.AddTypeRows | dcos_valkiria/cli.py:154-161 | one service type's `try` block adds the rows of `TypeOutcome` and reports whether `KeyError` was raised |
| TaskRows.TaskTable.AddIpRows | dcos_valkiria/cli.py:150-167 | one address adds exactly its rows. Those are `IP not valid` when the command failed. Otherwise they are the rows of the three types in order, and the `services_type_without_tasks` counter adds `No tasks running` exactly when all three raised `KeyError` |
| TaskRows.TaskTable.AddAllRows | dcos_valkiria/cli.py:143-167 | the addresses add their rows one after the other, in order |
| TaskRows.Tasks | dcos_valkiria/cli.py:141-168 | `_tasks` returns a new table with the header `Ip`, `TaskId` whose rows are those of each resolved address, in resolver order |
| TaskRows.AllRowsAppend | dcos_valkiria/cli.py:143 | the rows of several addresses are the rows of each, in order; a later address never changes the rows of an earlier one |
| TaskRows.AllRowsSnoc | dcos_valkiria/cli.py:143 | one more address appends its rows |
| TaskRows.NoTasksOnlyAtEnd | dcos_valkiria/cli.py:162-165 | before the third service type, no `No tasks running` row can have been added |
| TaskRows.MissCountIp | dcos_valkiria/cli.py:154-161 | whether a type raises `KeyError` does not depend on the address |
| TaskRows.EntryMissIp | dcos_valkiria/cli.py:156-161 | whether an entry list raises `KeyError` does not depend on the address |
| TaskRows.EntryRowsIp | dcos_valkiria/cli.py:156-160 | every row of an entry list carries the address |
| TaskRows.TypeRowsIp | dcos_valkiria/cli.py:153-160 | every row of the service types carries the address |
| TaskRows.IpRowsIp | dcos_valkiria/cli.py:150-167 | every row added for an address carries that address |
| TaskRows.EntryRowsComplete | dcos_valkiria/cli.py:156-160 | entries that all have the field give one row each, in order, labelled by that field (`Name` for daemons, `TaskName` for docker and service), and raise no `KeyError` |
| TaskRows.EntryRowsPartial | dcos_valkiria/cli.py:156-161 | an entry without the field raises `KeyError`, and the rows of the entries before it stay in the table |
| TaskRows.MissIffAbsent | dcos_valkiria/cli.py:154-161 | with well-formed entries, a type raises `KeyError` exactly when it is absent from the reply |
| TaskRows.ServiceTypesInOrder | dcos_valkiria/constants.py:9 | the types are walked in the order `daemon`, `docker`, `service`: their rows come in that order, and their misses add up |
| TaskRows.NoTasksIffAllAbsent | dcos_valkiria/cli.py:152-165 | with well-formed entries, `No tasks running` is added exactly when none of the three types is present, and then it is the only row; otherwise only the entries' rows are added |

## Left out

- The remote command is not modelled: the `ssh … curl` command line,
  `util.get_ssh_options`, `subprocess.check_output` and the "Running" message
  published before each command. Each address's outcome is a parameter of
  `Tasks`, one `Reply` per resolved address: a failed command
  (`CalledProcessError`) or the parsed map from service type to entries.
- JSON decoding is not modelled, and neither are its errors (`ValueError`,
  or a reply that is not an object). Entries are maps from field name to
  string, so non-string field values are out.
- `print(str(ips))` in `_tasks` is left out, because it is console output only.
- Tasks: `Tasks` requires the argument to resolve to a list of addresses.
  For an absent or empty argument, `_get_ips_list` returns 1 and `for ip in 1`
  raises `TypeError`; that crash is not modelled.
- PrettyTable rendering is not modelled. The table is its header and its rows.
- The command-line layer (`docopt`, `main`, `_cmds`, `_info`, the other
  subcommands) is not modelled, and neither are the acceptance tests in
  testsAT/src/test/java/com/stratio/paas/testsAT/specs/DCOSCliSpec.java.
- Of dcos_valkiria/constants.py, only `services_type` (line 9) is used.
- The `AttributeError` and `ValueError` branches of `_valid_ip_format`
  (lines 193-194 and 198-199) are not modelled. Every token is a string, and
  with ASCII digits `int` never fails.
- Unicode is not modelled. `isdigit` accepts only `0`-`9` and `strip` trims
  only the ASCII characters Python counts as whitespace. Python also accepts
  other Unicode digits and whitespace.
- The emitter is modelled as the sequence of messages it is given; how it
  displays them is not modelled.
- Idempotent: stated for arguments that resolve to at least one address.
  With none accepted, the comma-joined result is the empty string, which
  gives the sentinel.
- OnlySpaces: states the diagnostic as `InvalidMessage("")` rather than as a
  literal string.
