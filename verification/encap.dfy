/** One entry of the registry's "encap" list, the tunnel-interface naming
    convention that joins it to the device's state, and the exclusion of
    networks that have direct-routing agreements. */
module Encap {
  import opened Text

  /** A desired route. `id` stands for the object identity that Python's
      `__hash__` returns, so two entries are the same set element only when
      they are the same object; `updated` is the registry's update date,
      already formatted as the comment shows it. */
  datatype Entry = Entry(id: nat, network: string, maskLength: nat, gatewayIP: string, updated: string)

  /** `entry.network()`: the CIDR string "network/maskLength". */
  function Network(e: Entry): string {
    e.network + "/" + NatToString(e.maskLength)
  }

  /** If the address part holds no '/', the CIDR string splits back into the
      address and the mask length, so the string determines both. */
  lemma NetworkFields(e: Entry)
    requires '/' !in e.network
    ensures Split(Network(e), '/') == [e.network, NatToString(e.maskLength)]
    ensures DecimalValue(Split(Network(e), '/')[1]) == e.maskLength
  {
    var m := NatToString(e.maskLength);
    assert Network(e) == e.network + ['/'] + m;
    SplitAt(e.network, '/', m);
    SplitNoSeparator(e.network, '/');
    assert '/' !in m;
    SplitNoSeparator(m, '/');
    DecimalRoundTrip(e.maskLength);
  }

  /** The prefix that marks a tunnel interface and its routes as managed. */
  const AmprPrefix: string := "ampr-"

  /** `"ampr-%s" % gateway`: the name of the tunnel interface to a gateway,
      the one join key between desired entries, device routes and tunnels.
      The gateway can be read back from the name, so distinct gateways get
      distinct names. */
  function IfaceName(gateway: string): (name: string)
    ensures StartsWith(name, AmprPrefix)
    ensures name[|AmprPrefix|..] == gateway
  {
    AmprPrefix + gateway
  }

  /** The networks announced over BGP under direct-routing agreements. */
  const BgpNetworks: seq<string> := ["44.24.240.0/20", "44.34.128.0/21", "44.103.0.0/19"]

  /** No entry announcing one of the three BGP blocks survives the filter. */
  lemma BgpNetworksDropped(entries: seq<Entry>)
    ensures forall e :: e in FilterEncap(entries, BgpNetworks) ==>
      Network(e) != "44.24.240.0/20" && Network(e) != "44.34.128.0/21" && Network(e) != "44.103.0.0/19"
  {
    assert BgpNetworks[0] == "44.24.240.0/20";
    assert BgpNetworks[1] == "44.34.128.0/21";
    assert BgpNetworks[2] == "44.103.0.0/19";
  }

  /** `filter_encap`: an entry is dropped when its CIDR string is exactly one
      of the exclusions. */
  predicate Excluded(e: Entry, exclusions: seq<string>) {
    Network(e) in exclusions
  }

  /** `filter(None, map(filter_encap, entries))`: the entries in their
      original order, less the excluded ones. */
  function FilterEncap(entries: seq<Entry>, exclusions: seq<string>): (kept: seq<Entry>)
    ensures forall e :: e in kept <==> e in entries && !Excluded(e, exclusions)
    ensures |kept| <= |entries|
  {
    if entries == [] then []
    else
      var e := entries[|entries| - 1];
      var prefix := FilterEncap(entries[..|entries| - 1], exclusions);
      assert entries == entries[..|entries| - 1] + [e];
      if Excluded(e, exclusions) then prefix else prefix + [e]
  }

  /** `pos` lists, in increasing order, the positions in `entries` that
      `kept` takes its elements from, and every position it passes over
      holds an excluded entry. */
  ghost predicate KeptAt(entries: seq<Entry>, exclusions: seq<string>, kept: seq<Entry>, pos: seq<nat>) {
    && |pos| == |kept|
    && (forall i :: 0 <= i < |pos| ==> pos[i] < |entries| && kept[i] == entries[pos[i]])
    && (forall i, j :: 0 <= i < j < |pos| ==> pos[i] < pos[j])
    && (forall k :: 0 <= k < |entries| && k !in pos ==> Excluded(entries[k], exclusions))
  }

  /** Filtering keeps the relative order: the kept entries are a
      subsequence of `entries`, and only excluded entries are skipped. */
  lemma {:induction false} FilterEncapOrder(entries: seq<Entry>, exclusions: seq<string>)
    returns (pos: seq<nat>)
    ensures KeptAt(entries, exclusions, FilterEncap(entries, exclusions), pos)
  {
    if entries == [] {
      pos := [];
    } else {
      var n := |entries| - 1;
      var init := entries[..n];
      var prev := FilterEncapOrder(init, exclusions);
      var keptInit := FilterEncap(init, exclusions);
      if Excluded(entries[n], exclusions) {
        assert FilterEncap(entries, exclusions) == keptInit;
        pos := prev;
        KeptAtSnoc(entries, exclusions, keptInit, prev, false);
      } else {
        assert FilterEncap(entries, exclusions) == keptInit + [entries[n]];
        pos := prev + [n];
        KeptAtSnoc(entries, exclusions, keptInit, prev, true);
      }
    }
  }

  /** One more entry, kept or skipped, extends the positions. */
  lemma KeptAtSnoc(entries: seq<Entry>, exclusions: seq<string>, kept: seq<Entry>, pos: seq<nat>, keep: bool)
    requires entries != []
    requires KeptAt(entries[..|entries| - 1], exclusions, kept, pos)
    requires keep <==> !Excluded(entries[|entries| - 1], exclusions)
    ensures keep ==> KeptAt(entries, exclusions, kept + [entries[|entries| - 1]], pos + [|entries| - 1])
    ensures !keep ==> KeptAt(entries, exclusions, kept, pos)
  {
    var n := |entries| - 1;
    assert forall k :: 0 <= k < n ==> entries[..n][k] == entries[k];
    if keep {
      var pos' := pos + [n];
      assert forall k :: 0 <= k < n && k !in pos' ==> k !in pos;
    }
  }

  /** Exclusion is by exact string: a network more specific than an excluded
      block is kept. */
  lemma MoreSpecificNetworkKept()
    ensures var e := Entry(1, "44.24.241.0", 24, "192.0.2.1", "2014-01-01");
            FilterEncap([e], BgpNetworks) == [e]
  {
    var e := Entry(1, "44.24.241.0", 24, "192.0.2.1", "2014-01-01");
    assert NatToString(24) == "24";
    assert Network(e) == "44.24.241.0/24";
    assert !Excluded(e, BgpNetworks);
    assert [e][..0] == [];
  }

  /** An entry whose CIDR string equals an exclusion is dropped. */
  lemma ExactNetworkDropped()
    ensures var e := Entry(1, "44.24.240.0", 20, "192.0.2.1", "2014-01-01");
            FilterEncap([e], BgpNetworks) == []
  {
    var e := Entry(1, "44.24.240.0", 20, "192.0.2.1", "2014-01-01");
    assert NatToString(20) == "20";
    assert Network(e) == BgpNetworks[0];
    assert [e][..0] == [];
  }
}
