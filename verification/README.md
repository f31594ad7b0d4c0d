# updateros reconciliation engine, in Dafny

`updateros.py` keeps a MikroTik RouterOS edge router's AMPR (44-net) IPIP
tunnels and routes in line with the "encap" list that the AMPR portal
publishes. Each encap entry says "network N/M is reached through gateway G".
On the router that entry needs a tunnel interface named `ampr-G` with remote
address G, and a route to N/M through that interface. The script reads the
router's `/ip route export` and `/interface ipip export`. It works out which
entries are already in place. It then emits RouterOS commands: the stale
routes and tunnels are removed and the missing or partly-present entries are
recreated. A sanity guard refuses a run that would remove far more routes
than it adds.

This project models that engine and proves properties of it:

- `Text` holds one-character `str.split` with its inverse `join`, a prefix
  test, and the `%d` decimal formatting.
- `Encap` holds the encap entry and its `network()` string. It also holds
  the interface-name convention `"ampr-" + gateway`, which is the only join
  key between entries, device routes and tunnels, and the `filter_encap`
  exclusion of BGP-announced networks.
- `ExportParser` models the export text transform of `export_ros`: RouterOS
  continuation lines are collapsed and the text is split into lines. It
  also holds `parse_ros_route` and `parse_ros_ipip` as token-walking loops.
  Each loop is proved equal to a "last matching token wins" specification.
  It also holds the two list-level parsers.
- `Reconciler` holds the discard loop of `main`. It is proved equal to a
  declarative change set (entries to add, device routes and tunnels to
  remove, unchanged count). It also holds conservation, idempotence and a
  convergence lemma over an abstract device.
- `Commands` holds the sanity guard, the exact command strings, and the
  three loops that walk the Python sets and append commands.
- `Runner` holds `Run`, the body of `main` with the SSH session taken out.
  The registry entries, the exclusion list, the two export texts, the edge
  router address, today's date and the `-f` flag are its parameters.

A Python set is walked in an unspecified order. Each loop over a set
therefore also returns the order it took. The contracts
hold for every such order: each listed element of the set appears exactly
once.

The model follows the code in these details, which are easy to get wrong:

- Tokens are split on single spaces (`line.split(" ")`), not on any
  whitespace. A token is skipped unless it has exactly one `=`, so a token
  with two `=` is skipped too.
- Only the exact seven characters backslash, CR, LF and four spaces are
  collapsed, in a single left-to-right pass: a continuation that a removal
  brings together is not removed again. Lines are then split on LF, CR and CR LF, as Python 2's
  `str.splitlines` does on byte strings.
- When entries are added, the code emits the "# adding new and modified
  routes" header before the per-entry commands, so the clean-create scenario
  has that header as its second command.
- The conservation law proved is "unchanged + entries to add = entries",
  which needs distinct entries. A second lemma proves "removed + kept device
  routes = device routes".

## Model

| member | source | states |
|---|---|---|
| Text.Split | updateros.py:52 | `str.split(c)` yields at least one piece, and no piece contains the separator |
| Text.JoinSplit | updateros.py:52 | joining the pieces with the separator gives back the original line |
| Text.SplitJoin | updateros.py:52 | splitting a join of separator-free pieces gives back the pieces |
| Text.SplitAt | updateros.py:52 | splitting distributes over one occurrence of the separator |
| Text.NatToString | updateros.py:129 | `%d` of a count is a non-empty string of digits, with no leading zero unless the count is 0 |
| Text.DecimalRoundTrip | updateros.py:129 | reading the formatted count back gives the count |
| Text.NatToStringInjective | updateros.py:129 | different counts give different digit strings |
| Encap.NetworkFields | amprapi.py:37-38 | `network()` = address "/" mask length; it splits back into the address and the mask length |
| Encap.IfaceName | updateros.py:118-120 | the interface name starts with "ampr-", and the gateway can be read back from it |
| Encap.FilterEncap | updateros.py:44-47 | an entry is kept iff its `network()` string is not in the exclusion list |
| Encap.FilterEncapOrder | updateros.py:104 | the kept entries are taken from strictly increasing positions of the input, and every position passed over holds an excluded entry |
| Encap.BgpNetworksDropped | updateros.py:31-47 | no entry whose network string is 44.24.240.0/20, 44.34.128.0/21 or 44.103.0.0/19 survives the default filter |
| Encap.MoreSpecificNetworkKept | updateros.py:31-47 | 44.24.241.0/24 lies inside the excluded 44.24.240.0/20 and is still kept: matching is exact |
| Encap.ExactNetworkDropped | updateros.py:31-47 | an entry whose network string equals an excluded block is dropped |
| ExportParser.Collapse | updateros.py:89 | the collapsed text is no longer than the original; what it removes is fixed by ContinuationRemoved and CollapseNoContinuation |
| ExportParser.CollapseNoContinuation | updateros.py:89 | text in which no continuation occurs is unchanged by the collapse, stray backslashes included |
| ExportParser.CollapseNoBackslash | updateros.py:89 | text without a backslash is unchanged by the collapse |
| ExportParser.CollapseFreePrefix | updateros.py:89 | no continuation starts inside a backslash-free prefix, so the prefix is kept verbatim |
| ExportParser.ContinuationRemoved | updateros.py:89 | every continuation is removed, whatever text precedes it: collapsing `a` + continuation + `b` gives collapsed `a` followed by collapsed `b` |
| ExportParser.SinglePass | updateros.py:89 | the text is scanned once: a continuation that a removal brings together stays in the text |
| ExportParser.LineEnd | updateros.py:90 | the index found is that of the first line break, or the length if there is none |
| ExportParser.SplitLines | updateros.py:90 | no line returned by `splitlines` contains a line break |
| ExportParser.OneLine | updateros.py:90 | non-empty text without breaks is a single line |
| ExportParser.SplitLinesStep | updateros.py:90 | one break-free line and its LF, CR or CR LF come off the front, unless a lone CR is followed by LF |
| ExportParser.SplitLinesTerminated | updateros.py:90 | break-free lines each ended by LF, by CR or by CR LF split back into exactly those lines |
| ExportParser.ExportLines | updateros.py:89-90 | the transformed export has no line break inside a line, and text without a backslash is only split into lines |
| ExportParser.ContinuationJoinsLines | updateros.py:89-90 | when the text before it has no backslash, a continuation leaves the same lines as the two halves written on one line; a backslash just before it can make a new continuation, which stays |
| ExportParser.KeyValSplits | updateros.py:53-56 | a field yields a pair only when it is an '='-free key, one '=' and an '='-free value; a field without '=' is skipped |
| ExportParser.KeyValOfPair | updateros.py:54 | "key=value" with '='-free key and value gives exactly (key, value) |
| ExportParser.LastValueIsLastTaken | updateros.py:52-61 | a parser variable ends as the value of the last accepted token, or None iff no token is accepted |
| ExportParser.ParseRosRoute | updateros.py:50-65 | the token loop returns the route given by the last `dst-address` and the last "ampr-" `gateway` |
| ExportParser.ParseRosIpip | updateros.py:68-83 | the token loop returns the tunnel given by the last "ampr-" `name` and the last `remote-address` |
| ExportParser.RouteOfTokens | updateros.py:50-65 | a route is parsed iff the last `dst-address` value is non-empty and some `gateway` value carries "ampr-"; the route holds those last values |
| ExportParser.LastTakenUnique | updateros.py:52-61 | the last accepted token is unique, and its value is the one the parser keeps |
| ExportParser.GatewayValueNonEmpty | updateros.py:59-62 | a kept gateway value is never empty, so the prefix test implies the truth test |
| ExportParser.IpipOfTokens | updateros.py:68-83 | a tunnel is parsed iff some `name` value carries "ampr-" and the last `remote-address` value is non-empty; the tunnel holds those last values |
| ExportParser.ParsedRoutes | updateros.py:93-95 | a route is in the parsed list iff some line parses to it; no more routes than lines |
| ExportParser.ParsedIpips | updateros.py:98-100 | a tunnel is in the parsed list iff some line parses to it; no more tunnels than lines |
| ExportParser.ExportRosRoutes | updateros.py:93-95 | the route export text gives the routes of its collapsed lines, in order |
| ExportParser.ExportRosIpips | updateros.py:98-100 | the tunnel export text gives the tunnels of its collapsed lines, in order |
| ExportParser.NoLineBreakAppend | updateros.py:90 | two break-free strings joined together are still break-free |
| ExportParser.RouteLineIsOneLine | updateros.py:89-90 | a route line is read as one line whether or not it is wrapped |
| ExportParser.RouteLineParses | updateros.py:50-65 | for a non-empty D and a G that starts with "ampr-", both free of space, '=', backslash and line breaks, "dst-address=D gateway=G" parses to (D, G) |
| ExportParser.WrappedRouteLine | updateros.py:89-95 | for the same D and G as RouteLineParses, a wrapped route line and the one-line form both parse to the single route (D, G) |
| ExportParser.WrappedRouteExample | updateros.py:89-95 | "dst-address=44.1.2.0/24 \ CR LF gateway=ampr-9.9.9.9" parses to (44.1.2.0/24, ampr-9.9.9.9) |
| Reconciler.Reconcile | updateros.py:113-126 | the discard loop computes the declarative change set |
| Reconciler.KeptRoutesSnoc | updateros.py:121-124 | one more matched entry keeps exactly its own route |
| Reconciler.KeptIpipsSnoc | updateros.py:121-125 | one more matched entry keeps exactly its own tunnel |
| Reconciler.ReconciledShape | updateros.py:113-126 | to-add is a subset of the entries, and the removals are subsets of the device's routes and tunnels; an entry leaves to-add iff both its route and its tunnel are present |
| Reconciler.RemovedIffUnclaimed | updateros.py:121-125 | a device route or tunnel is removed iff no fully matched entry needs it |
| Reconciler.Conservation | updateros.py:113-126 | with distinct entries, unchanged + \|to add\| = \|entries\| |
| Reconciler.RouteTablePartition | updateros.py:115-124 | \|route removals\| + \|routes kept for unchanged entries\| = \|device routes\| |
| Reconciler.CountAllMatched | updateros.py:117-126 | if every entry matches, every entry is counted unchanged |
| Reconciler.Idempotent | updateros.py:113-126 | if the device holds exactly the expected routes and tunnels, all three sets are empty and unchanged = \|entries\| |
| Reconciler.Converges | updateros.py:135-155 | after the removals and additions are carried out, reconciling again changes nothing |
| Commands.SanityFails | updateros.py:131 | a forced run never fails, a failing run removes more than 100 routes, and more than 100 removals beyond the additions fail an unforced run |
| Commands.SanityMessageCounts | updateros.py:132-133 | the warning is "Sanity check failed: removing too many routes (-", the removal digits, " +", the addition digits and ")"; both counts read back from their digits |
| Commands.GuardThreshold | updateros.py:131-133 | 150 removals against 10 additions fail unforced and pass forced; tunnel removals do not count |
| Commands.GuardBoundary | updateros.py:131 | with 10 additions the guard fails exactly from 111 removals |
| Commands.UnchangedLineCount | updateros.py:129 | the summary is "# ", digits, " routes unchanged", and the digits read back as the unchanged count |
| Commands.RemoveRouteCmdFields | updateros.py:138 | the removal is `/ip route remove [find dst-address="`, the destination, `" gateway="`, the gateway and `"]`, with nothing else |
| Commands.RemoveIpipCmdName | updateros.py:143 | the removal starts with `/interface ipip remove [find name=` and the rest is the tunnel's name and "]" |
| Commands.AddIpipCmdFields | updateros.py:148-153 | the tunnel command is the fixed options, the edge router address and the `ampr-` name, then ` remote-address=` and the entry's gateway, then the quoted comment; the comment is "AMPR last updated ", the update date, ", added " and today's date |
| Commands.AddRouteCmdFields | updateros.py:154 | the route command is `/ip route add dst-address=`, the entry's network, ` gateway=`, its `ampr-` interface directly, and ` distance=30` |
| Commands.DiscoveryCmdIface | updateros.py:155 | the discovery command is `/ip neighbor discovery set ` followed by the entry's `ampr-` interface and " discover=no" |
| Commands.Additions | updateros.py:147-155 | three commands per added entry |
| Commands.AdditionsSnoc | updateros.py:147-155 | one more entry appends exactly its three commands |
| Commands.Enumerate | updateros.py:137-147 | walking a set lists each of its elements exactly once, in some order |
| Commands.AppendRouteRemovals | updateros.py:135-138 | appends the header (if any) and one remove command per route, each route of the set exactly once |
| Commands.AppendIpipRemovals | updateros.py:140-143 | appends the header (if any) and one remove command per tunnel, each tunnel exactly once |
| Commands.AppendAdditions | updateros.py:145-155 | appends the header (if any) and the tunnel, route and discovery commands of each entry to add, each entry exactly once |
| Commands.RemovalLayout | updateros.py:128-143 | first the unchanged line, then the route removals under their header, then the tunnel removals under theirs |
| Commands.AdditionsSlice | updateros.py:147-155 | entry i's commands occupy positions 3i to 3i+2 |
| Commands.AdditionLayout | updateros.py:145-155 | after all removals: the add header, then per entry its tunnel, route and discovery commands; nothing follows |
| Commands.CommandCount | updateros.py:128-155 | for any iteration orders of the three sets, the list has 1 + [rm≠∅] + \|rm\| + [ip≠∅] + \|ip\| + [add≠∅] + 3·\|add\| commands, counted over the sets |
| Commands.NothingToChange | updateros.py:128-155 | with nothing to change, the list is the unchanged line alone |
| Runner.Run | updateros.py:103-155 | filters, parses, reconciles, guards and builds the commands; a guard failure yields its message and no command |
| Runner.ExcludedNeverAdded | updateros.py:104 | an excluded network is never scheduled for adding |
| Runner.ConsistentDeviceOnlySummary | updateros.py:113-145 | on a consistent device the guard passes and the only command is "# N routes unchanged" with N = \|entries\| |
| Runner.SampleStrings | updateros.py:118-120 | the sample entry's network is 44.1.2.0/24 and its interface is ampr-5.5.5.5 |
| Runner.CleanCreate | updateros.py:113-155 | on an empty device the sample entry gives: unchanged line for 0, add header, its tunnel, route and discovery commands |
| Runner.UnchangedLineText | updateros.py:129 | the unchanged lines for 0 and 1 read "# 0 routes unchanged" and "# 1 routes unchanged" |
| Runner.SampleRouteCommand | updateros.py:154 | the sample's route command names dst-address 44.1.2.0/24, gateway ampr-5.5.5.5 and distance 30 |
| Runner.SampleDiscoveryCommand | updateros.py:155 | the sample's discovery command reads "/ip neighbor discovery set ampr-5.5.5.5 discover=no" |
| Runner.CleanMatch | updateros.py:113-129 | when the sample's route and tunnel are present, the commands are exactly ["# 1 routes unchanged"] |

## Left out

- ExportParser.SplitLines: its own contract only says that no line holds a break. The round trip, SplitLinesTerminated, covers text whose lines all end with the same terminator. Text that mixes terminators is not covered.

- The SSH session is left out: connecting, `exec_command` and reading its output. The two export texts are parameters of `Run`, and the commands are its result.
- `time.sleep(0.1)` between commands, printing the list (`-v`) and the dry run (`-n`) are left out. They only decide whether and how the result is sent.
- Reading `sys.argv` is left out. The edge router address and `-f` are parameters.
- The `except` handlers are left out: printing the warning, `socket.timeout` and closing the session. The guard's warning is returned as `Err`.
- The date part of the tunnel comment is not modelled. `entry['updated'].date()` is the entry's `updated` string, already formatted, and `date.today()` is the `today` parameter.
- Most of `amprapi.py` is left out: the HTTP client, version check, status handling, JSON decoding and `strptime`. Only `network()` and identity hashing are modelled. An entry's identity is its `id` field.
- `filter(None, ...)` would also drop a falsy entry, that is, an empty dictionary. The portal never returns one, so `FilterEncap` tests exclusion only.
- Each entry's three add commands are appended as one three-element list, not as three separate appends. The resulting list is the same.
- Python set iteration order is not fixed. Each set's order is any listing of its elements.
- Device behaviour is abstract in `Reconciler.Converges`. Routes and tunnels are sets, removals delete and additions insert. RouterOS refusing a second interface with an existing name is not modelled.
