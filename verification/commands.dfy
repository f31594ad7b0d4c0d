/** The sanity guard and the RouterOS command list built from a change set. */
module Commands {
  import opened Text
  import opened Encap
  import opened ExportParser
  import opened Reconciler

  /* ---------- Sanity guard ---------- */

  /** How many more route removals than additions a run may make unforced. */
  const RemovalSlack: nat := 100

  /** The guard trips when route removals exceed route additions by more than
      the slack, unless forced; tunnel removals play no part. */
  function SanityFails(cs: ChangeSet, force: bool): (fails: bool)
    ensures fails ==> !force && |cs.routesToRemove| > RemovalSlack
    ensures !force && |cs.routesToRemove| > |cs.routesToAdd| + RemovalSlack ==> fails
  {
    |cs.routesToRemove| > |cs.routesToAdd| + RemovalSlack && !force
  }

  /** The text of the `UserWarning` the guard raises. */
  function SanityMessage(cs: ChangeSet): string {
    SanityPrefix + NatToString(|cs.routesToRemove|) + " +" + NatToString(|cs.routesToAdd|) + ")"
  }

  const SanityPrefix: string := "Sanity check failed: removing too many routes (-"

  /** The warning names the guard, then the number of route removals and,
      after " +", the number of route additions; both counts can be read
      back from their digits. */
  lemma SanityMessageCounts(cs: ChangeSet)
    ensures var msg := SanityMessage(cs);
      var removed := NatToString(|cs.routesToRemove|);
      var added := NatToString(|cs.routesToAdd|);
      var addStart := |SanityPrefix| + |removed| + 2;
      && StartsWith(msg, SanityPrefix)
      && |msg| == addStart + |added| + 1
      && (forall i :: |SanityPrefix| <= i < |SanityPrefix| + |removed| ==> IsDigit(msg[i]))
      && DecimalValue(msg[|SanityPrefix|..|SanityPrefix| + |removed|]) == |cs.routesToRemove|
      && msg[|SanityPrefix| + |removed|..addStart] == " +"
      && (forall i :: addStart <= i < |msg| - 1 ==> IsDigit(msg[i]))
      && DecimalValue(msg[addStart..|msg| - 1]) == |cs.routesToAdd|
      && msg[|msg| - 1] == ')'
  {
    var msg := SanityMessage(cs);
    var removed := NatToString(|cs.routesToRemove|);
    var added := NatToString(|cs.routesToAdd|);
    var addStart := |SanityPrefix| + |removed| + 2;
    assert msg == SanityPrefix + removed + " +" + added + ")";
    assert msg[..|SanityPrefix|] == SanityPrefix;
    assert msg[|SanityPrefix|..|SanityPrefix| + |removed|] == removed;
    assert msg[|SanityPrefix| + |removed|..addStart] == " +";
    assert msg[addStart..|msg| - 1] == added;
    DecimalRoundTrip(|cs.routesToRemove|);
    DecimalRoundTrip(|cs.routesToAdd|);
  }

  /** 150 removals against 10 additions trip the guard unless forced, and
      the tunnels to remove do not change the verdict. */
  lemma GuardThreshold(cs: ChangeSet, ipips: set<Ipip>)
    requires |cs.routesToRemove| == 150 && |cs.routesToAdd| == 10
    ensures SanityFails(cs, false) && !SanityFails(cs, true)
    ensures SanityFails(cs.(ipipsToRemove := ipips), false)
  {
  }

  /** The guard trips exactly past the slack: 110 removals against 10
      additions pass, 111 do not. */
  lemma GuardBoundary(cs: ChangeSet)
    requires |cs.routesToAdd| == 10
    ensures SanityFails(cs, false) <==> |cs.routesToRemove| >= 111
  {
  }

  /* ---------- Command strings ---------- */

  /** "# %d routes unchanged" */
  function UnchangedLine(n: nat): string {
    "# " + NatToString(n) + UnchangedSuffix
  }

  const UnchangedSuffix: string := " routes unchanged"

  /** The count can be read back from the digits between "# " and the
      suffix. */
  lemma UnchangedLineCount(n: nat)
    ensures var line := UnchangedLine(n);
      && StartsWith(line, "# ") && |line| > |UnchangedSuffix| + 2
      && line[|line| - |UnchangedSuffix|..] == UnchangedSuffix
      && (forall i :: 2 <= i < |line| - |UnchangedSuffix| ==> IsDigit(line[i]))
      && DecimalValue(line[2..|line| - |UnchangedSuffix|]) == n
  {
    var line := UnchangedLine(n);
    assert line[..2] == "# ";
    assert line[2..|line| - |UnchangedSuffix|] == NatToString(n);
    assert line[|line| - |UnchangedSuffix|..] == UnchangedSuffix;
    DecimalRoundTrip(n);
  }

  const RemoveRoutesHeader: string := "# removing old or modified routes"
  const RemoveIpipsHeader: string := "# removing orphaned ipip interfaces"
  const AddHeader: string := "# adding new and modified routes"

  function RemoveRouteCmd(r: Route): string {
    RemoveRoutePrefix + r.dst + "\" gateway=\"" + r.gateway + "\"]"
  }

  const RemoveRoutePrefix: string := "/ip route remove [find dst-address=\""

  /** The removal selects the route by both fields: the quoted destination
      follows the fixed prefix, then the `gateway` key, then the quoted
      gateway closes the filter. */
  lemma RemoveRouteCmdFields(r: Route)
    ensures var cmd := RemoveRouteCmd(r);
      var gwStart := |RemoveRoutePrefix| + |r.dst| + 11;
      && StartsWith(cmd, RemoveRoutePrefix)
      && |cmd| == gwStart + |r.gateway| + 2
      && cmd[|RemoveRoutePrefix|..|RemoveRoutePrefix| + |r.dst|] == r.dst
      && cmd[|RemoveRoutePrefix| + |r.dst|..gwStart] == "\" gateway=\""
      && cmd[gwStart..gwStart + |r.gateway|] == r.gateway
      && cmd[gwStart + |r.gateway|..] == "\"]"
  {
    var cmd := RemoveRouteCmd(r);
    var gwStart := |RemoveRoutePrefix| + |r.dst| + 11;
    assert cmd == RemoveRoutePrefix + r.dst + "\" gateway=\"" + r.gateway + "\"]";
    assert cmd[..|RemoveRoutePrefix|] == RemoveRoutePrefix;
    assert cmd[|RemoveRoutePrefix|..|RemoveRoutePrefix| + |r.dst|] == r.dst;
    assert cmd[|RemoveRoutePrefix| + |r.dst|..gwStart] == "\" gateway=\"";
    assert cmd[gwStart..gwStart + |r.gateway|] == r.gateway;
    assert cmd[gwStart + |r.gateway|..] == "\"]";
  }

  function RemoveIpipCmd(t: Ipip): string {
    RemoveIpipPrefix + t.name + "]"
  }

  const RemoveIpipPrefix: string := "/interface ipip remove [find name="

  /** The removal selects the tunnel by its name, which can be read back. */
  lemma RemoveIpipCmdName(t: Ipip)
    ensures var cmd := RemoveIpipCmd(t);
      StartsWith(cmd, RemoveIpipPrefix) && cmd[|RemoveIpipPrefix|..] == t.name + "]"
  {
    var cmd := RemoveIpipCmd(t);
    assert cmd[..|RemoveIpipPrefix|] == RemoveIpipPrefix;
    assert cmd[|RemoveIpipPrefix|..] == t.name + "]";
  }

  /** The tunnel comment: the entry's update date and the date of the run. */
  function Comment(e: Entry, today: string): string {
    "AMPR last updated " + e.updated + ", added " + today
  }

  function AddIpipCmd(e: Entry, edgeRouterIp: string, today: string): string {
    AddIpipPrefix + edgeRouterIp + " name=" + IfaceName(e.gatewayIP) + " remote-address=" + e.gatewayIP
      + " comment=\"" + Comment(e, today) + "\""
  }

  const AddIpipPrefix: string := "/interface ipip add !keepalive clamp-tcp-mss=yes local-address="

  /** The tunnel command starts with the fixed options, the edge router's
      address and the tunnel's name; then comes the remote address, which is
      the entry's gateway; it ends with the quoted comment, which gives the
      entry's update date, ", added " and the run's date. */
  lemma AddIpipCmdFields(e: Entry, edgeRouterIp: string, today: string)
    ensures var cmd := AddIpipCmd(e, edgeRouterIp, today);
      var c := Comment(e, today);
      var head := AddIpipPrefix + edgeRouterIp + " name=" + IfaceName(e.gatewayIP);
      var tail := " comment=\"" + c + "\"";
      var dateEnd := 18 + |e.updated|;
      && |cmd| == |head| + 16 + |e.gatewayIP| + |tail|
      && cmd[..|head|] == head
      && cmd[|head|..|head| + 16] == " remote-address="
      && cmd[|head| + 16..|cmd| - |tail|] == e.gatewayIP
      && cmd[|cmd| - |tail|..] == tail
      && |c| == dateEnd + 8 + |today|
      && c[..dateEnd] == "AMPR last updated " + e.updated
      && c[dateEnd..dateEnd + 8] == ", added "
      && c[dateEnd + 8..] == today
  {
    var c := Comment(e, today);
    var head := AddIpipPrefix + edgeRouterIp + " name=" + IfaceName(e.gatewayIP);
    var tail := " comment=\"" + c + "\"";
    var cmd := AddIpipCmd(e, edgeRouterIp, today);
    var dateEnd := 18 + |e.updated|;
    assert cmd == head + " remote-address=" + e.gatewayIP + tail;
    assert cmd[..|head|] == head;
    assert cmd[|head|..|head| + 16] == " remote-address=";
    assert cmd[|head| + 16..|cmd| - |tail|] == e.gatewayIP;
    assert cmd[|cmd| - |tail|..] == tail;
    assert c == "AMPR last updated " + e.updated + ", added " + today;
    assert c[..dateEnd] == "AMPR last updated " + e.updated;
    assert c[dateEnd..dateEnd + 8] == ", added ";
    assert c[dateEnd + 8..] == today;
  }

  function AddRouteCmd(e: Entry): string {
    "/ip route add dst-address=" + Network(e) + " gateway=" + IfaceName(e.gatewayIP) + " distance=30"
  }

  /** The route command routes the entry's network through its tunnel, at
      distance 30: the interface follows `gateway=` directly. */
  lemma AddRouteCmdFields(e: Entry)
    ensures var cmd := AddRouteCmd(e);
      var head := "/ip route add dst-address=" + Network(e) + " gateway=";
      var iface := IfaceName(e.gatewayIP);
      && |cmd| == |head| + |iface| + 12
      && cmd[..|head|] == head
      && cmd[|head|..] == iface + " distance=30"
  {
    var head := "/ip route add dst-address=" + Network(e) + " gateway=";
    var iface := IfaceName(e.gatewayIP);
    var cmd := AddRouteCmd(e);
    assert cmd == head + iface + " distance=30";
    assert cmd[..|head|] == head;
    assert cmd[|head|..] == iface + " distance=30";
  }

  function DiscoveryCmd(e: Entry): string {
    "/ip neighbor discovery set " + IfaceName(e.gatewayIP) + " discover=no"
  }

  /** Neighbour discovery is switched off on the entry's own tunnel. */
  lemma DiscoveryCmdIface(e: Entry)
    ensures var cmd := DiscoveryCmd(e);
      StartsWith(cmd, "/ip neighbor discovery set ") && cmd[27..] == IfaceName(e.gatewayIP) + " discover=no"
  {
    var cmd := DiscoveryCmd(e);
    assert cmd[..27] == "/ip neighbor discovery set ";
    assert cmd[27..] == IfaceName(e.gatewayIP) + " discover=no";
  }

  /* ---------- The command list ---------- */

  /** `order` lists every element of `s` exactly once: one possible
      iteration order of a Python set. */
  ghost predicate Enumerates<T(!new)>(order: seq<T>, s: set<T>) {
    && (forall x :: x in order <==> x in s)
    && (forall i, j :: 0 <= i < j < |order| ==> order[i] != order[j])
    && |order| == |s|
  }

  /** A header line, present only when its group is not empty. */
  function Header(nonEmpty: bool, line: string): seq<string> {
    if nonEmpty then [line] else []
  }

  function RouteRemovals(rm: seq<Route>): seq<string> {
    seq(|rm|, i requires 0 <= i < |rm| => RemoveRouteCmd(rm[i]))
  }

  function IpipRemovals(ip: seq<Ipip>): seq<string> {
    seq(|ip|, i requires 0 <= i < |ip| => RemoveIpipCmd(ip[i]))
  }

  /** The three commands for an added entry: its tunnel, its route through
      the tunnel, then neighbour discovery switched off on the tunnel. */
  function EntryCommands(e: Entry, edgeRouterIp: string, today: string): seq<string> {
    [AddIpipCmd(e, edgeRouterIp, today), AddRouteCmd(e), DiscoveryCmd(e)]
  }

  /** The commands of every added entry, in order. */
  function Additions(add: seq<Entry>, edgeRouterIp: string, today: string): (cmds: seq<string>)
    ensures |cmds| == 3 * |add|
  {
    if add == [] then []
    else Additions(add[..|add| - 1], edgeRouterIp, today) + EntryCommands(add[|add| - 1], edgeRouterIp, today)
  }

  lemma AdditionsSnoc(base: seq<string>, add: seq<Entry>, e: Entry, edgeRouterIp: string, today: string)
    ensures base + Additions(add + [e], edgeRouterIp, today)
         == base + Additions(add, edgeRouterIp, today) + EntryCommands(e, edgeRouterIp, today)
  {
    assert (add + [e])[..|add|] == add;
  }

  function RouteBlock(rm: seq<Route>): seq<string> {
    Header(rm != [], RemoveRoutesHeader) + RouteRemovals(rm)
  }

  function IpipBlock(ip: seq<Ipip>): seq<string> {
    Header(ip != [], RemoveIpipsHeader) + IpipRemovals(ip)
  }

  function AddBlock(add: seq<Entry>, edgeRouterIp: string, today: string): seq<string> {
    Header(add != [], AddHeader) + Additions(add, edgeRouterIp, today)
  }

  /** The whole list for one iteration order of each of the three sets. */
  function CommandList(unchangedCount: nat, rm: seq<Route>, ip: seq<Ipip>, add: seq<Entry>,
                       edgeRouterIp: string, today: string): seq<string>
  {
    [UnchangedLine(unchangedCount)] + RouteBlock(rm) + IpipBlock(ip) + AddBlock(add, edgeRouterIp, today)
  }

  /** Walks a set in some order, as a Python `for` loop over a set does:
      every element is listed exactly once. */
  method Enumerate<T(==,!new)>(s: set<T>) returns (order: seq<T>)
    ensures Enumerates(order, s)
  {
    var rest := s;
    order := [];
    while rest != {}
      invariant forall x :: x in s <==> x in order || x in rest
      invariant forall x :: x in order ==> x !in rest
      invariant forall i, j :: 0 <= i < j < |order| ==> order[i] != order[j]
      invariant |order| + |rest| == |s|
      decreases |rest|
    {
      var x :| x in rest;
      order := order + [x];
      rest := rest - {x};
    }
  }

  /** Appends the route removals, under their header when there are any. */
  method AppendRouteRemovals(commands: seq<string>, routesToRemove: set<Route>)
    returns (result: seq<string>, order: seq<Route>)
    ensures Enumerates(order, routesToRemove)
    ensures result == commands + RouteBlock(order)
  {
    result := commands;
    if routesToRemove != {} {
      result := result + [RemoveRoutesHeader];
    }
    var routes := Enumerate(routesToRemove);
    assert routes == [] <==> routesToRemove == {};
    ghost var base := result;
    for i := 0 to |routes|
      invariant result == base + RouteRemovals(routes[..i])
    {
      assert RouteRemovals(routes[..i + 1]) == RouteRemovals(routes[..i]) + [RemoveRouteCmd(routes[i])];
      result := result + [RemoveRouteCmd(routes[i])];
    }
    assert routes[..|routes|] == routes;
    order := routes;
  }

  /** Appends the tunnel removals, under their header when there are any. */
  method AppendIpipRemovals(commands: seq<string>, ipipsToRemove: set<Ipip>)
    returns (result: seq<string>, order: seq<Ipip>)
    ensures Enumerates(order, ipipsToRemove)
    ensures result == commands + IpipBlock(order)
  {
    result := commands;
    if ipipsToRemove != {} {
      result := result + [RemoveIpipsHeader];
    }
    var ipips := Enumerate(ipipsToRemove);
    assert ipips == [] <==> ipipsToRemove == {};
    ghost var base := result;
    for i := 0 to |ipips|
      invariant result == base + IpipRemovals(ipips[..i])
    {
      assert IpipRemovals(ipips[..i + 1]) == IpipRemovals(ipips[..i]) + [RemoveIpipCmd(ipips[i])];
      result := result + [RemoveIpipCmd(ipips[i])];
    }
    assert ipips[..|ipips|] == ipips;
    order := ipips;
  }

  /** Appends, under their header when there are any, the tunnel, route and
      discovery commands of each entry to add. */
  method AppendAdditions(commands: seq<string>, routesToAdd: set<Entry>, edgeRouterIp: string, today: string)
    returns (result: seq<string>, order: seq<Entry>)
    ensures Enumerates(order, routesToAdd)
    ensures result == commands + AddBlock(order, edgeRouterIp, today)
  {
    result := commands;
    if routesToAdd != {} {
      result := result + [AddHeader];
    }
    var entries := Enumerate(routesToAdd);
    assert entries == [] <==> routesToAdd == {};
    ghost var base := result;
    for i := 0 to |entries|
      invariant result == base + Additions(entries[..i], edgeRouterIp, today)
    {
      AdditionsSnoc(base, entries[..i], entries[i], edgeRouterIp, today);
      assert entries[..i + 1] == entries[..i] + [entries[i]];
      result := result + EntryCommands(entries[i], edgeRouterIp, today);
    }
    assert entries[..|entries|] == entries;
    order := entries;
  }

  /** The fixed order of the list, first part: the unchanged line, then
      the route removals under their header, then the tunnel removals under
      theirs. */
  lemma RemovalLayout(n: nat, rm: seq<Route>, ip: seq<Ipip>, add: seq<Entry>, edgeRouterIp: string, today: string)
    ensures var cmds := CommandList(n, rm, ip, add, edgeRouterIp, today);
      var hr := if rm != [] then 1 else 0;
      var ipBase := 1 + hr + |rm|;
      var hi := if ip != [] then 1 else 0;
      && cmds[0] == UnchangedLine(n)
      && (rm != [] ==> cmds[1] == RemoveRoutesHeader)
      && (forall i :: 0 <= i < |rm| ==> cmds[1 + hr + i] == RemoveRouteCmd(rm[i]))
      && (ip != [] ==> cmds[ipBase] == RemoveIpipsHeader)
      && (forall i :: 0 <= i < |ip| ==> cmds[ipBase + hi + i] == RemoveIpipCmd(ip[i]))
  {
    var head := [UnchangedLine(n)];
    var adds := AddBlock(add, edgeRouterIp, today);
    var cmds := CommandList(n, rm, ip, add, edgeRouterIp, today);
    var hr := if rm != [] then 1 else 0;
    var hi := if ip != [] then 1 else 0;
    var upToIp := head + RouteBlock(rm);
    assert cmds == head + RouteBlock(rm) + (IpipBlock(ip) + adds);
    assert cmds == upToIp + IpipBlock(ip) + adds;
    BlockAt(head, RemoveRoutesHeader, RouteRemovals(rm), IpipBlock(ip) + adds);
    BlockAt(upToIp, RemoveIpipsHeader, IpipRemovals(ip), adds);
    forall i | 0 <= i < |rm| ensures cmds[1 + hr + i] == RemoveRouteCmd(rm[i]) {
      assert cmds[1 + hr + i] == RouteRemovals(rm)[i];
    }
    forall i | 0 <= i < |ip| ensures cmds[|upToIp| + hi + i] == RemoveIpipCmd(ip[i]) {
      assert cmds[|upToIp| + hi + i] == IpipRemovals(ip)[i];
    }
  }

  /** Where a block sits in the list: its header first when it has lines,
      then the lines. */
  lemma BlockAt(pre: seq<string>, header: string, lines: seq<string>, post: seq<string>)
    ensures var cmds := pre + (Header(lines != [], header) + lines) + post;
      var h := if lines != [] then 1 else 0;
      && (lines != [] ==> cmds[|pre|] == header)
      && (forall i :: 0 <= i < |lines| ==> cmds[|pre| + h + i] == lines[i])
  {
  }

  /** Where each entry's commands sit in `Additions`: entry `i` occupies
      positions 3i to 3i+2. */
  lemma {:induction false} AdditionsSlice(add: seq<Entry>, edgeRouterIp: string, today: string, i: nat)
    requires i < |add|
    ensures Additions(add, edgeRouterIp, today)[3 * i .. 3 * i + 3] == EntryCommands(add[i], edgeRouterIp, today)
  {
    var init := add[..|add| - 1];
    if i < |add| - 1 {
      AdditionsSlice(init, edgeRouterIp, today, i);
    }
  }

  /** The fixed order of the list, second part: after every removal, the
      add header and then, for each added entry, its tunnel, its route and
      its discovery command, in that order; nothing follows. */
  lemma AdditionLayout(n: nat, rm: seq<Route>, ip: seq<Ipip>, add: seq<Entry>, edgeRouterIp: string, today: string)
    ensures var cmds := CommandList(n, rm, ip, add, edgeRouterIp, today);
      var addBase := 1 + (if rm != [] then 1 else 0) + |rm| + (if ip != [] then 1 else 0) + |ip|;
      var ha := if add != [] then 1 else 0;
      && (add != [] ==> cmds[addBase] == AddHeader)
      && (forall i :: 0 <= i < |add| ==>
            cmds[addBase + ha + 3 * i .. addBase + ha + 3 * i + 3] == EntryCommands(add[i], edgeRouterIp, today))
      && |cmds| == addBase + ha + 3 * |add|
  {
    var upToAdd := [UnchangedLine(n)] + RouteBlock(rm) + IpipBlock(ip);
    var adds := Additions(add, edgeRouterIp, today);
    var ha := if add != [] then 1 else 0;
    var cmds := CommandList(n, rm, ip, add, edgeRouterIp, today);
    assert cmds == upToAdd + Header(add != [], AddHeader) + adds;
    var addBase := |upToAdd|;
    forall i | 0 <= i < |add|
      ensures cmds[addBase + ha + 3 * i .. addBase + ha + 3 * i + 3] == EntryCommands(add[i], edgeRouterIp, today)
    {
      AdditionsSlice(add, edgeRouterIp, today, i);
      assert cmds[addBase + ha ..] == adds;
      assert cmds[addBase + ha + 3 * i .. addBase + ha + 3 * i + 3] == adds[3 * i .. 3 * i + 3];
    }
  }

  /** The length of the list, counted over the three sets: the unchanged
      line, one header per non-empty set, one command per route or tunnel
      removed and three per entry added. */
  lemma CommandCount(cs: ChangeSet, rm: seq<Route>, ip: seq<Ipip>, add: seq<Entry>, edgeRouterIp: string, today: string)
    requires Enumerates(rm, cs.routesToRemove) && Enumerates(ip, cs.ipipsToRemove) && Enumerates(add, cs.routesToAdd)
    ensures |CommandList(cs.unchangedCount, rm, ip, add, edgeRouterIp, today)|
         == 1 + (if cs.routesToRemove != {} then 1 else 0) + |cs.routesToRemove|
              + (if cs.ipipsToRemove != {} then 1 else 0) + |cs.ipipsToRemove|
              + (if cs.routesToAdd != {} then 1 else 0) + 3 * |cs.routesToAdd|
  {
    AdditionLayout(cs.unchangedCount, rm, ip, add, edgeRouterIp, today);
    assert rm == [] <==> cs.routesToRemove == {};
    assert ip == [] <==> cs.ipipsToRemove == {};
    assert add == [] <==> cs.routesToAdd == {};
  }

  /** With nothing to change, the list is the unchanged line alone. */
  lemma NothingToChange(cs: ChangeSet, rm: seq<Route>, ip: seq<Ipip>, add: seq<Entry>, edgeRouterIp: string, today: string)
    requires cs.routesToRemove == {} && cs.ipipsToRemove == {} && cs.routesToAdd == {}
    requires Enumerates(rm, cs.routesToRemove) && Enumerates(ip, cs.ipipsToRemove) && Enumerates(add, cs.routesToAdd)
    ensures CommandList(cs.unchangedCount, rm, ip, add, edgeRouterIp, today) == [UnchangedLine(cs.unchangedCount)]
  {
    assert rm == [] && ip == [] && add == [];
  }
}
