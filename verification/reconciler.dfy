/** The three-way diff between the desired entries and the device's routes
    and tunnels. A desired entry is unchanged only when both the route
    (network, "ampr-"+gateway) and the tunnel ("ampr-"+gateway, gateway) are
    on the device; anything else is recreated in full, and whatever the
    unchanged entries do not account for is removed. */
module Reconciler {
  import opened Encap
  import opened ExportParser

  /** What has to change on the device, and how many entries do not. */
  datatype ChangeSet = ChangeSet(
    routesToAdd: set<Entry>,
    routesToRemove: set<Route>,
    ipipsToRemove: set<Ipip>,
    unchangedCount: nat)

  /** The device route an entry needs. */
  function ExpectedRoute(e: Entry): Route {
    Route(Network(e), IfaceName(e.gatewayIP))
  }

  /** The tunnel an entry needs. */
  function ExpectedIpip(e: Entry): Ipip {
    Ipip(IfaceName(e.gatewayIP), e.gatewayIP)
  }

  /** Both the entry's route and its tunnel are on the device. */
  predicate Matched(e: Entry, routes: seq<Route>, ipips: seq<Ipip>) {
    ExpectedRoute(e) in routes && ExpectedIpip(e) in ipips
  }

  /** The entries to (re)create: every desired entry that is not matched. */
  function ToAdd(encap: seq<Entry>, routes: seq<Route>, ipips: seq<Ipip>): set<Entry> {
    set e | e in encap && !Matched(e, routes, ipips)
  }

  /** The device routes that matched entries account for. */
  function KeptRoutes(encap: seq<Entry>, routes: seq<Route>, ipips: seq<Ipip>): set<Route> {
    set e | e in encap && Matched(e, routes, ipips) :: ExpectedRoute(e)
  }

  /** The device tunnels that matched entries account for. */
  function KeptIpips(encap: seq<Entry>, routes: seq<Route>, ipips: seq<Ipip>): set<Ipip> {
    set e | e in encap && Matched(e, routes, ipips) :: ExpectedIpip(e)
  }

  /** The number of positions of `encap` that hold a matched entry. */
  function CountMatched(encap: seq<Entry>, routes: seq<Route>, ipips: seq<Ipip>): nat {
    if encap == [] then 0
    else CountMatched(encap[..|encap| - 1], routes, ipips)
         + (if Matched(encap[|encap| - 1], routes, ipips) then 1 else 0)
  }

  /** The change set, stated as a whole rather than built step by step. */
  function Reconciled(encap: seq<Entry>, routes: seq<Route>, ipips: seq<Ipip>): ChangeSet {
    ChangeSet(
      ToAdd(encap, routes, ipips),
      (set r | r in routes) - KeptRoutes(encap, routes, ipips),
      (set t | t in ipips) - KeptIpips(encap, routes, ipips),
      CountMatched(encap, routes, ipips))
  }

  lemma KeptRoutesSnoc(encap: seq<Entry>, e: Entry, routes: seq<Route>, ipips: seq<Ipip>)
    ensures KeptRoutes(encap + [e], routes, ipips)
         == KeptRoutes(encap, routes, ipips) + (if Matched(e, routes, ipips) then {ExpectedRoute(e)} else {})
  {
    assert forall x :: x in encap + [e] <==> x in encap || x == e;
  }

  lemma KeptIpipsSnoc(encap: seq<Entry>, e: Entry, routes: seq<Route>, ipips: seq<Ipip>)
    ensures KeptIpips(encap + [e], routes, ipips)
         == KeptIpips(encap, routes, ipips) + (if Matched(e, routes, ipips) then {ExpectedIpip(e)} else {})
  {
    assert forall x :: x in encap + [e] <==> x in encap || x == e;
  }

  /** The reconcile loop of `main`: start from copies of the three inputs and,
      for each fully matched entry, discard the entry, its route and its
      tunnel and count it as unchanged. */
  method Reconcile(encap: seq<Entry>, rosRoutes: seq<Route>, rosIpips: seq<Ipip>) returns (cs: ChangeSet)
    ensures cs == Reconciled(encap, rosRoutes, rosIpips)
  {
    var unchangedCount := 0;
    var routesToAdd := set e | e in encap;
    var routesToRemove := set r | r in rosRoutes;
    var ipipsToRemove := set t | t in rosIpips;
    for i := 0 to |encap|
      invariant routesToAdd == (set e | e in encap) - (set e | e in encap[..i] && Matched(e, rosRoutes, rosIpips))
      invariant routesToRemove == (set r | r in rosRoutes) - KeptRoutes(encap[..i], rosRoutes, rosIpips)
      invariant ipipsToRemove == (set t | t in rosIpips) - KeptIpips(encap[..i], rosRoutes, rosIpips)
      invariant unchangedCount == CountMatched(encap[..i], rosRoutes, rosIpips)
    {
      var entry := encap[i];
      var dstaddress := Network(entry);
      var gateway := entry.gatewayIP;
      var iface := IfaceName(gateway);
      assert encap[..i + 1] == encap[..i] + [entry];
      KeptRoutesSnoc(encap[..i], entry, rosRoutes, rosIpips);
      KeptIpipsSnoc(encap[..i], entry, rosRoutes, rosIpips);
      assert forall x :: x in encap[..i + 1] <==> x in encap[..i] || x == entry;
      if Route(dstaddress, iface) in rosRoutes && Ipip(iface, gateway) in rosIpips {
        routesToAdd := routesToAdd - {entry};
        routesToRemove := routesToRemove - {Route(dstaddress, iface)};
        ipipsToRemove := ipipsToRemove - {Ipip(iface, gateway)};
        unchangedCount := unchangedCount + 1;
      }
    }
    assert encap[..|encap|] == encap;
    cs := ChangeSet(routesToAdd, routesToRemove, ipipsToRemove, unchangedCount);
  }

  /** The three sets only ever shrink from the inputs, and an entry is left
      to add exactly when its route or its tunnel is missing: there is no
      partial match. */
  lemma ReconciledShape(encap: seq<Entry>, routes: seq<Route>, ipips: seq<Ipip>)
    ensures var cs := Reconciled(encap, routes, ipips);
      && (forall e :: e in cs.routesToAdd ==> e in encap)
      && (forall r :: r in cs.routesToRemove ==> r in routes)
      && (forall t :: t in cs.ipipsToRemove ==> t in ipips)
      && (forall e :: e in encap ==>
            (e !in cs.routesToAdd <==> ExpectedRoute(e) in routes && ExpectedIpip(e) in ipips))
  {
  }

  /** A device route is removed exactly when no fully matched entry needs
      it, and likewise for a tunnel. */
  lemma RemovedIffUnclaimed(encap: seq<Entry>, routes: seq<Route>, ipips: seq<Ipip>, r: Route, t: Ipip)
    ensures r in Reconciled(encap, routes, ipips).routesToRemove <==>
      r in routes && forall e :: e in encap && Matched(e, routes, ipips) ==> ExpectedRoute(e) != r
    ensures t in Reconciled(encap, routes, ipips).ipipsToRemove <==>
      t in ipips && forall e :: e in encap && Matched(e, routes, ipips) ==> ExpectedIpip(e) != t
  {
  }

  /** No entry object occurs twice: distinct ids. */
  predicate DistinctIds(encap: seq<Entry>) {
    forall i, j :: 0 <= i < j < |encap| ==> encap[i].id != encap[j].id
  }

  /** Every desired entry is either counted unchanged or scheduled for
      adding, never both and never neither. */
  lemma {:induction false} Conservation(encap: seq<Entry>, routes: seq<Route>, ipips: seq<Ipip>)
    requires DistinctIds(encap)
    ensures Reconciled(encap, routes, ipips).unchangedCount + |Reconciled(encap, routes, ipips).routesToAdd| == |encap|
  {
    if encap != [] {
      var init := encap[..|encap| - 1];
      var e := encap[|encap| - 1];
      assert encap == init + [e];
      Conservation(init, routes, ipips);
      assert forall i :: 0 <= i < |init| ==> init[i].id != e.id;
      assert e !in init;
      assert forall x :: x in encap <==> x in init || x == e;
      if Matched(e, routes, ipips) {
        assert ToAdd(encap, routes, ipips) == ToAdd(init, routes, ipips);
      } else {
        assert ToAdd(encap, routes, ipips) == ToAdd(init, routes, ipips) + {e};
      }
    }
  }

  /** Removals and the routes kept for unchanged entries partition the
      device's route table. */
  lemma RouteTablePartition(encap: seq<Entry>, routes: seq<Route>, ipips: seq<Ipip>)
    ensures |Reconciled(encap, routes, ipips).routesToRemove| + |KeptRoutes(encap, routes, ipips)|
         == |set r | r in routes|
  {
    var all := set r | r in routes;
    var kept := KeptRoutes(encap, routes, ipips);
    assert kept <= all;
    assert all == (all - kept) + kept;
  }

  /** All routes an entry list needs, and all tunnels. */
  function ExpectedRoutes(encap: seq<Entry>): set<Route> {
    set e | e in encap :: ExpectedRoute(e)
  }

  function ExpectedIpips(encap: seq<Entry>): set<Ipip> {
    set e | e in encap :: ExpectedIpip(e)
  }

  lemma {:induction false} CountAllMatched(encap: seq<Entry>, routes: seq<Route>, ipips: seq<Ipip>)
    requires forall e :: e in encap ==> Matched(e, routes, ipips)
    ensures CountMatched(encap, routes, ipips) == |encap|
  {
    if encap != [] {
      var init := encap[..|encap| - 1];
      assert forall e :: e in init ==> e in encap;
      CountAllMatched(init, routes, ipips);
    }
  }

  /** Idempotence: when the device holds exactly the routes and tunnels the
      entries need, nothing is added or removed and every entry counts as
      unchanged. */
  lemma Idempotent(encap: seq<Entry>, routes: seq<Route>, ipips: seq<Ipip>)
    requires (set r | r in routes) == ExpectedRoutes(encap)
    requires (set t | t in ipips) == ExpectedIpips(encap)
    ensures Reconciled(encap, routes, ipips) == ChangeSet({}, {}, {}, |encap|)
  {
    forall e | e in encap ensures Matched(e, routes, ipips) {
      assert ExpectedRoute(e) in ExpectedRoutes(encap);
      assert ExpectedIpip(e) in ExpectedIpips(encap);
    }
    CountAllMatched(encap, routes, ipips);
    assert KeptRoutes(encap, routes, ipips) == ExpectedRoutes(encap);
    assert KeptIpips(encap, routes, ipips) == ExpectedIpips(encap);
    assert ToAdd(encap, routes, ipips) == {};
  }

  /** The device's routes and tunnels once a change set is carried out:
      removals first, then each added entry's tunnel and route. */
  function ApplyRoutes(cs: ChangeSet, routes: set<Route>): set<Route> {
    (routes - cs.routesToRemove) + set e | e in cs.routesToAdd :: ExpectedRoute(e)
  }

  function ApplyIpips(cs: ChangeSet, ipips: set<Ipip>): set<Ipip> {
    (ipips - cs.ipipsToRemove) + set e | e in cs.routesToAdd :: ExpectedIpip(e)
  }

  /** Self-healing: after the change set is carried out, the device holds
      exactly what the entries need, so reconciling again changes nothing. */
  lemma Converges(encap: seq<Entry>, routes: seq<Route>, ipips: seq<Ipip>, routes': seq<Route>, ipips': seq<Ipip>)
    requires (set r | r in routes') == ApplyRoutes(Reconciled(encap, routes, ipips), set r | r in routes)
    requires (set t | t in ipips') == ApplyIpips(Reconciled(encap, routes, ipips), set t | t in ipips)
    ensures Reconciled(encap, routes', ipips') == ChangeSet({}, {}, {}, |encap|)
  {
    var cs := Reconciled(encap, routes, ipips);
    var all := set r | r in routes;
    var kept := KeptRoutes(encap, routes, ipips);
    assert kept <= all;
    assert all - cs.routesToRemove == kept;
    assert (set r | r in routes') == ExpectedRoutes(encap) by {
      forall r | r in ExpectedRoutes(encap) ensures r in ApplyRoutes(cs, all) {
        var e :| e in encap && ExpectedRoute(e) == r;
        if Matched(e, routes, ipips) {
          assert r in kept;
        } else {
          assert e in cs.routesToAdd;
        }
      }
    }
    var allT := set t | t in ipips;
    var keptT := KeptIpips(encap, routes, ipips);
    assert keptT <= allT;
    assert allT - cs.ipipsToRemove == keptT;
    assert (set t | t in ipips') == ExpectedIpips(encap) by {
      forall t | t in ExpectedIpips(encap) ensures t in ApplyIpips(cs, allT) {
        var e :| e in encap && ExpectedIpip(e) == t;
        if Matched(e, routes, ipips) {
          assert t in keptT;
        } else {
          assert e in cs.routesToAdd;
        }
      }
    }
    Idempotent(encap, routes', ipips');
  }
}
