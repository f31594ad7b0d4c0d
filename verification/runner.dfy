/** The body of `main` without its SSH session: filter the registry's
    entries, parse the two exports, reconcile, guard, and build the command
    list. The edge router's address, the `-f` flag, the exclusion list and
    today's date are parameters. */
module Runner {
  import opened Wrappers
  import opened Text
  import opened Encap
  import opened ExportParser
  import opened Reconciler
  import opened Commands

  /** The change set one run computes from its inputs. */
  function RunChanges(entries: seq<Entry>, exclusions: seq<string>, routeExport: string, ipipExport: string): ChangeSet {
    Reconciled(FilterEncap(entries, exclusions), ParsedRoutes(ExportLines(routeExport)), ParsedIpips(ExportLines(ipipExport)))
  }

  /** One run: the commands to send, or the guard's message, in which case
      no command at all is produced. The other results are the change set and
      the orders in which its three sets were walked. */
  method Run(entries: seq<Entry>, exclusions: seq<string>, routeExport: string, ipipExport: string,
             edgeRouterIp: string, today: string, force: bool)
    returns (r: Result<seq<string>, string>, cs: ChangeSet,
             rmOrder: seq<Route>, ipOrder: seq<Ipip>, addOrder: seq<Entry>)
    ensures cs == RunChanges(entries, exclusions, routeExport, ipipExport)
    ensures r.Err? <==> SanityFails(cs, force)
    ensures r.Err? ==> r.error == SanityMessage(cs)
    ensures r.Ok? ==>
      && Enumerates(rmOrder, cs.routesToRemove)
      && Enumerates(ipOrder, cs.ipipsToRemove)
      && Enumerates(addOrder, cs.routesToAdd)
      && r.value == CommandList(cs.unchangedCount, rmOrder, ipOrder, addOrder, edgeRouterIp, today)
  {
    var encap := FilterEncap(entries, exclusions);
    var rosRoutes := ExportRosRoutes(routeExport);
    var rosIpips := ExportRosIpips(ipipExport);
    var changes := Reconcile(encap, rosRoutes, rosIpips);
    cs := changes;
    rmOrder, ipOrder, addOrder := [], [], [];

    var commands := [UnchangedLine(changes.unchangedCount)];
    if |changes.routesToRemove| > |changes.routesToAdd| + RemovalSlack && !force {
      r := Err(SanityMessage(changes));
      return;
    }
    commands, rmOrder := AppendRouteRemovals(commands, changes.routesToRemove);
    commands, ipOrder := AppendIpipRemovals(commands, changes.ipipsToRemove);
    commands, addOrder := AppendAdditions(commands, changes.routesToAdd, edgeRouterIp, today);
    r := Ok(commands);
  }

  /** An entry whose network is excluded is never scheduled for adding. */
  lemma ExcludedNeverAdded(entries: seq<Entry>, exclusions: seq<string>, routeExport: string, ipipExport: string, e: Entry)
    requires Network(e) in exclusions
    ensures e !in RunChanges(entries, exclusions, routeExport, ipipExport).routesToAdd
  {
  }

  /** When the device already holds exactly what the entries need, the run
      passes the guard and its only command is the unchanged line, counting
      every entry. */
  lemma ConsistentDeviceOnlySummary(encap: seq<Entry>, routes: seq<Route>, ipips: seq<Ipip>,
                                    rm: seq<Route>, ip: seq<Ipip>, add: seq<Entry>, edgeRouterIp: string, today: string, force: bool)
    requires (set r | r in routes) == ExpectedRoutes(encap)
    requires (set t | t in ipips) == ExpectedIpips(encap)
    requires var cs := Reconciled(encap, routes, ipips);
      Enumerates(rm, cs.routesToRemove) && Enumerates(ip, cs.ipipsToRemove) && Enumerates(add, cs.routesToAdd)
    ensures !SanityFails(Reconciled(encap, routes, ipips), force)
    ensures CommandList(Reconciled(encap, routes, ipips).unchangedCount, rm, ip, add, edgeRouterIp, today)
         == [UnchangedLine(|encap|)]
  {
    Idempotent(encap, routes, ipips);
    NothingToChange(Reconciled(encap, routes, ipips), rm, ip, add, edgeRouterIp, today);
  }

  /* ---------- Two concrete scenarios ---------- */

  /** The entry 44.1.2.0/24 via gateway 5.5.5.5. */
  const Sample := Entry(1, "44.1.2.0", 24, "5.5.5.5", "2014-01-01")

  lemma SampleStrings()
    ensures Network(Sample) == "44.1.2.0/24"
    ensures IfaceName(Sample.gatewayIP) == "ampr-5.5.5.5"
  {
    assert NatToString(24) == "24";
  }

  /** Clean create: with nothing on the device, the entry is added, and the
      commands are the unchanged line for 0, the add header, then the
      entry's tunnel, route and discovery commands. */
  lemma CleanCreate(add: seq<Entry>, edgeRouterIp: string, today: string)
    requires Enumerates(add, Reconciled([Sample], [], []).routesToAdd)
    ensures Reconciled([Sample], [], []) == ChangeSet({Sample}, {}, {}, 0)
    ensures CommandList(0, [], [], add, edgeRouterIp, today)
         == [UnchangedLine(0), AddHeader,
             AddIpipCmd(Sample, edgeRouterIp, today), AddRouteCmd(Sample), DiscoveryCmd(Sample)]
  {
    assert !Matched(Sample, [], []);
    assert ToAdd([Sample], [], []) == {Sample};
    assert CountMatched([Sample], [], []) == 0 by {
      assert [Sample][..0] == [];
    }
    assert add == [Sample] by {
      assert |add| == 1;
      assert add[0] in add;
    }
    assert Additions(add, edgeRouterIp, today) == EntryCommands(Sample, edgeRouterIp, today) by {
      assert add[..0] == [];
    }
  }

  /** The summary line for a count, in full. */
  lemma UnchangedLineText()
    ensures UnchangedLine(0) == "# 0 routes unchanged"
    ensures UnchangedLine(1) == "# 1 routes unchanged"
  {
    UnchangedLineOf(0, "0");
    UnchangedLineOf(1, "1");
  }

  lemma UnchangedLineOf(n: nat, digits: string)
    requires NatToString(n) == digits
    ensures UnchangedLine(n) == "# " + digits + " routes unchanged"
  {
  }

  /** The route command of the clean-create scenario, in full. */
  lemma SampleRouteCommand()
    ensures AddRouteCmd(Sample) == "/ip route add dst-address=" + "44.1.2.0/24" + " gateway=" + "ampr-5.5.5.5" + " distance=30"
  {
    SampleStrings();
  }

  /** The discovery command of the clean-create scenario, in full. */
  lemma SampleDiscoveryCommand()
    ensures DiscoveryCmd(Sample) == "/ip neighbor discovery set ampr-5.5.5.5 discover=no"
  {
    SampleStrings();
  }

  /** Clean match: with the entry's route and tunnel on the device, the only
      command is "# 1 routes unchanged". */
  lemma CleanMatch(rm: seq<Route>, ip: seq<Ipip>, add: seq<Entry>, edgeRouterIp: string, today: string)
    requires var cs := Reconciled([Sample], [ExpectedRoute(Sample)], [ExpectedIpip(Sample)]);
      Enumerates(rm, cs.routesToRemove) && Enumerates(ip, cs.ipipsToRemove) && Enumerates(add, cs.routesToAdd)
    ensures CommandList(Reconciled([Sample], [ExpectedRoute(Sample)], [ExpectedIpip(Sample)]).unchangedCount,
                        rm, ip, add, edgeRouterIp, today)
         == ["# 1 routes unchanged"]
  {
    assert (set r | r in [ExpectedRoute(Sample)]) == ExpectedRoutes([Sample]);
    assert (set t | t in [ExpectedIpip(Sample)]) == ExpectedIpips([Sample]);
    ConsistentDeviceOnlySummary([Sample], [ExpectedRoute(Sample)], [ExpectedIpip(Sample)], rm, ip, add, edgeRouterIp, today, false);
    UnchangedLineText();
  }
}
