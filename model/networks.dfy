/** The network of networks/network.py: typed views of its nodes, the link topology
    rebuilt on every `add_node`, two- and three-hop request paths, per-hop delays,
    per-kind energy sums, and the tick that runs nodes, then links, then forwarding. */
module Networks {
  import opened Common
  import opened Requests
  import opened Antennas
  import opened Nodes
  import opened Links

  /** Link configurations of the topology rule (bandwidth, signal power, carrier). */
  const UserLinkConfig: LinkConfig := LinkConfig(100e6, 23.0, 2e9)
  const BsToHapsConfig: LinkConfig := LinkConfig(100e6, 30.0, 2e9)
  const HapsToBsConfig: LinkConfig := LinkConfig(100e6, 33.0, 2e9)
  const HapsToLeoConfig: LinkConfig := LinkConfig(1e9, 33.0, 2e9)

  // ----- typed views -----

  /** The nodes of kind k, in network order (`[n for n in nodes if isinstance(n, K)]`). */
  function OfKind(ns: seq<BaseNode>, k: NodeKind): (r: seq<BaseNode>)
    ensures forall n :: n in r ==> n in ns && n.kind == k
    ensures forall i :: 0 <= i < |ns| && ns[i].kind == k ==> ns[i] in r
    ensures |r| <= |ns|
  {
    if ns == [] then []
    else OfKind(ns[..|ns| - 1], k) + (if ns[|ns| - 1].kind == k then [ns[|ns| - 1]] else [])
  }

  /** Filtering commutes with concatenation, so the views keep the network order. */
  lemma {:induction false} OfKindAppend(a: seq<BaseNode>, b: seq<BaseNode>, k: NodeKind)
    ensures OfKind(a + b, k) == OfKind(a, k) + OfKind(b, k)
  {
    if b == [] {
      assert a + b == a;
    } else {
      var front, last := b[..|b| - 1], b[|b| - 1];
      var tail := if last.kind == k then [last] else [];
      assert (a + b)[..|a + b| - 1] == a + front && (a + b)[|a + b| - 1] == last;
      assert OfKind(a + b, k) == OfKind(a + front, k) + tail;
      assert OfKind(b, k) == OfKind(front, k) + tail;
      OfKindAppend(a, front, k);
      assert OfKind(a, k) + OfKind(front, k) + tail == OfKind(a, k) + (OfKind(front, k) + tail);
    }
  }

  /** `count_nodes_by_type`. */
  function CountNodesByType(ns: seq<BaseNode>, k: NodeKind): nat {
    |OfKind(ns, k)|
  }

  /** Every node has exactly one kind: the four counts add up to the node count. */
  lemma {:induction false} KindCountsPartition(ns: seq<BaseNode>)
    ensures CountNodesByType(ns, UserDeviceNode) + CountNodesByType(ns, BaseStationNode)
          + CountNodesByType(ns, HapsNode) + CountNodesByType(ns, LeoNode) == |ns|
  {
    if ns != [] {
      KindCountsPartition(ns[..|ns| - 1]);
    }
  }

  /** `compute_nodes = haps_nodes + base_stations + leo_nodes`. */
  function ComputeView(ns: seq<BaseNode>): seq<BaseNode> {
    OfKind(ns, HapsNode) + OfKind(ns, BaseStationNode) + OfKind(ns, LeoNode)
  }

  /** The compute nodes are exactly the nodes that are not user devices. */
  lemma ComputeNodesAreNonUsers(ns: seq<BaseNode>, n: BaseNode)
    ensures n in ComputeView(ns) <==> n in ns && n.kind != UserDeviceNode
  {
  }

  // ----- closest node -----

  /** Index of the first minimum: the running minimum with strict `<`, starting from +inf. */
  function ArgMinFirst(keys: seq<real>): (r: nat)
    requires |keys| > 0
    ensures r < |keys|
    ensures forall k :: 0 <= k < |keys| ==> keys[r] <= keys[k]
    ensures forall k :: 0 <= k < r ==> keys[r] < keys[k]
  {
    if |keys| == 1 then 0
    else
      var b := ArgMinFirst(keys[..|keys| - 1]);
      if keys[|keys| - 1] < keys[b] then |keys| - 1 else b
  }

  /** Squared distances from `from` to each candidate. */
  function Dists(from: Position, cands: seq<BaseNode>): (r: seq<real>)
    ensures |r| == |cands|
    ensures forall i :: 0 <= i < |cands| ==> r[i] == DistSq(from, cands[i].position)
  {
    seq(|cands|, i requires 0 <= i < |cands| => DistSq(from, cands[i].position))
  }

  /** The candidate closest to `from`, the earliest one on ties. */
  function Closest(from: Position, cands: seq<BaseNode>): BaseNode
    requires |cands| > 0
  {
    cands[ArgMinFirst(Dists(from, cands))]
  }

  /** The closest-candidate loop: `found` iff there is a candidate, and then `k` is the
      first candidate at minimal distance. */
  method ClosestIndex(from: Position, cands: seq<BaseNode>) returns (found: bool, k: nat)
    ensures found <==> |cands| > 0
    ensures found ==> k == ArgMinFirst(Dists(from, cands))
  {
    found, k := false, 0;
    var best := 0.0;
    var i := 0;
    while i < |cands|
      invariant 0 <= i <= |cands|
      invariant found <==> i > 0
      invariant found ==> k == ArgMinFirst(Dists(from, cands)[..i]) && best == DistSq(from, cands[k].position)
    {
      var d := DistSq(from, cands[i].position);
      assert Dists(from, cands)[..i + 1][..i] == Dists(from, cands)[..i];
      if !found || d < best {
        found, k, best := true, i, d;
      }
      i := i + 1;
    }
    assert Dists(from, cands)[..i] == Dists(from, cands);
  }

  // ----- link topology -----

  datatype LinkSpec = LinkSpec(a: BaseNode, b: BaseNode, config: LinkConfig)

  /** Links from `a` to each of `bs`, in order. */
  function ToEach(a: BaseNode, bs: seq<BaseNode>, c: LinkConfig): (r: seq<LinkSpec>)
    ensures |r| == |bs| && forall i :: 0 <= i < |bs| ==> r[i] == LinkSpec(a, bs[i], c)
  {
    seq(|bs|, i requires 0 <= i < |bs| => LinkSpec(a, bs[i], c))
  }

  /** Links from each of `as` to `b`, in order. */
  function FromEach(as_: seq<BaseNode>, b: BaseNode, c: LinkConfig): (r: seq<LinkSpec>)
    ensures |r| == |as_| && forall i :: 0 <= i < |as_| ==> r[i] == LinkSpec(as_[i], b, c)
  {
    seq(|as_|, i requires 0 <= i < |as_| => LinkSpec(as_[i], b, c))
  }

  /** One user: a link to every HAPS, then one to the closest base station if any. */
  function UserPlan(u: BaseNode, haps: seq<BaseNode>, bss: seq<BaseNode>): seq<LinkSpec> {
    ToEach(u, haps, UserLinkConfig) + (if bss == [] then [] else [LinkSpec(u, Closest(u.position, bss), UserLinkConfig)])
  }

  function UsersPlan(users: seq<BaseNode>, haps: seq<BaseNode>, bss: seq<BaseNode>): seq<LinkSpec> {
    if users == [] then []
    else UsersPlan(users[..|users| - 1], haps, bss) + UserPlan(users[|users| - 1], haps, bss)
  }

  /** One base station: for every HAPS, BS -> HAPS then HAPS -> BS. */
  function StationPlan(b: BaseNode, haps: seq<BaseNode>): seq<LinkSpec> {
    if haps == [] then []
    else
      var h := haps[|haps| - 1];
      StationPlan(b, haps[..|haps| - 1]) + [LinkSpec(b, h, BsToHapsConfig), LinkSpec(h, b, HapsToBsConfig)]
  }

  function StationsPlan(bss: seq<BaseNode>, haps: seq<BaseNode>): seq<LinkSpec> {
    if bss == [] then [] else StationsPlan(bss[..|bss| - 1], haps) + StationPlan(bss[|bss| - 1], haps)
  }

  /** One LEO: a link from every HAPS. */
  function LeosPlan(leos: seq<BaseNode>, haps: seq<BaseNode>): seq<LinkSpec> {
    if leos == [] then [] else LeosPlan(leos[..|leos| - 1], haps) + FromEach(haps, leos[|leos| - 1], HapsToLeoConfig)
  }

  /** The links `_update_communication_links` builds for a node list, in creation order. */
  function LinkPlan(ns: seq<BaseNode>): seq<LinkSpec> {
    var users, haps, bss, leos := OfKind(ns, UserDeviceNode), OfKind(ns, HapsNode), OfKind(ns, BaseStationNode), OfKind(ns, LeoNode);
    UsersPlan(users, haps, bss) + StationsPlan(bss, haps) + LeosPlan(leos, haps)
  }

  /** The endpoints and configuration of a built link. */
  function SpecOf(l: CommunicationLink): LinkSpec {
    LinkSpec(l.nodeA, l.nodeB, l.config)
  }

  /** Links realise a plan: same endpoints and configuration, index by index. */
  predicate Realizes(ls: seq<CommunicationLink>, plan: seq<LinkSpec>) {
    |ls| == |plan| && forall i :: 0 <= i < |ls| ==> SpecOf(ls[i]) == plan[i]
  }

  lemma RealizesAppend(ls: seq<CommunicationLink>, plan: seq<LinkSpec>, ls2: seq<CommunicationLink>, plan2: seq<LinkSpec>)
    requires Realizes(ls, plan) && Realizes(ls2, plan2)
    ensures Realizes(ls + ls2, plan + plan2)
  {
  }

  /** The allowed shapes of a planned link. */
  predicate WellFormedSpec(s: LinkSpec) {
    || (s.a.kind == UserDeviceNode && s.b.kind == HapsNode && s.config == UserLinkConfig)
    || (s.a.kind == UserDeviceNode && s.b.kind == BaseStationNode && s.config == UserLinkConfig)
    || (s.a.kind == BaseStationNode && s.b.kind == HapsNode && s.config == BsToHapsConfig)
    || (s.a.kind == HapsNode && s.b.kind == BaseStationNode && s.config == HapsToBsConfig)
    || (s.a.kind == HapsNode && s.b.kind == LeoNode && s.config == HapsToLeoConfig)
  }

  lemma {:induction false} UsersPlanSize(users: seq<BaseNode>, haps: seq<BaseNode>, bss: seq<BaseNode>)
    ensures |UsersPlan(users, haps, bss)| == |users| * (|haps| + if bss == [] then 0 else 1)
  {
    if users != [] {
      var x := |haps| + if bss == [] then 0 else 1;
      UsersPlanSize(users[..|users| - 1], haps, bss);
      assert |UserPlan(users[|users| - 1], haps, bss)| == x;
      assert (|users| - 1) * x + x == |users| * x;
    }
  }

  lemma {:induction false} UsersPlanLinks(users: seq<BaseNode>, haps: seq<BaseNode>, bss: seq<BaseNode>)
    requires forall n :: n in users ==> n.kind == UserDeviceNode
    requires forall n :: n in haps ==> n.kind == HapsNode
    requires forall n :: n in bss ==> n.kind == BaseStationNode
    ensures forall s :: s in UsersPlan(users, haps, bss) ==> WellFormedSpec(s) && s.a in users && (s.b in haps || s.b in bss)
  {
    if users != [] {
      var u := users[|users| - 1];
      UsersPlanLinks(users[..|users| - 1], haps, bss);
      if bss != [] {
        assert Closest(u.position, bss) in bss;
      }
      assert forall s :: s in UserPlan(u, haps, bss) ==> WellFormedSpec(s) && s.a == u && (s.b in haps || s.b in bss);
    }
  }

  lemma {:induction false} StationPlanShape(b: BaseNode, haps: seq<BaseNode>)
    requires forall n :: n in haps ==> n.kind == HapsNode
    requires b.kind == BaseStationNode
    ensures forall s :: s in StationPlan(b, haps) ==>
      WellFormedSpec(s) && ((s.a == b && s.b in haps) || (s.a in haps && s.b == b))
  {
    if haps != [] {
      StationPlanShape(b, haps[..|haps| - 1]);
    }
  }

  lemma {:induction false} StationPlanSize(b: BaseNode, haps: seq<BaseNode>)
    ensures |StationPlan(b, haps)| == 2 * |haps|
  {
    if haps != [] {
      StationPlanSize(b, haps[..|haps| - 1]);
    }
  }

  lemma {:induction false} StationsPlanSize(bss: seq<BaseNode>, haps: seq<BaseNode>)
    ensures |StationsPlan(bss, haps)| == 2 * (|bss| * |haps|)
  {
    if bss != [] {
      var n, h := |bss| - 1, |haps|;
      StationsPlanSize(bss[..n], haps);
      StationPlanSize(bss[n], haps);
      assert |StationsPlan(bss, haps)| == |StationsPlan(bss[..n], haps)| + |StationPlan(bss[n], haps)|;
      OneMoreRow(n, h);
    }
  }

  /** n rows of h, plus one more row, are n + 1 rows. */
  lemma OneMoreRow(n: int, h: int)
    ensures 2 * (n * h) + 2 * h == 2 * ((n + 1) * h)
  {
  }

  lemma {:induction false} StationsPlanLinks(bss: seq<BaseNode>, haps: seq<BaseNode>)
    requires forall n :: n in haps ==> n.kind == HapsNode
    requires forall n :: n in bss ==> n.kind == BaseStationNode
    ensures forall s :: s in StationsPlan(bss, haps) ==>
      WellFormedSpec(s) && ((s.a in bss && s.b in haps) || (s.a in haps && s.b in bss))
  {
    if bss != [] {
      StationsPlanLinks(bss[..|bss| - 1], haps);
      StationPlanShape(bss[|bss| - 1], haps);
    }
  }

  lemma {:induction false} LeosPlanSize(leos: seq<BaseNode>, haps: seq<BaseNode>)
    ensures |LeosPlan(leos, haps)| == |leos| * |haps|
  {
    if leos != [] {
      LeosPlanSize(leos[..|leos| - 1], haps);
      assert (|leos| - 1) * |haps| + |haps| == |leos| * |haps|;
    }
  }

  lemma {:induction false} LeosPlanLinks(leos: seq<BaseNode>, haps: seq<BaseNode>)
    requires forall n :: n in haps ==> n.kind == HapsNode
    requires forall n :: n in leos ==> n.kind == LeoNode
    ensures forall s :: s in LeosPlan(leos, haps) ==> WellFormedSpec(s) && s.a in haps && s.b in leos
  {
    if leos != [] {
      LeosPlanLinks(leos[..|leos| - 1], haps);
    }
  }

  /** The topology rule: U·H + U·[B > 0] + 2·B·H + L·H links, each between two nodes
      of the network and of one of the five allowed kind pairs; no link ends at a user. */
  lemma LinkPlanShape(ns: seq<BaseNode>)
    ensures var u, h, b, l := CountNodesByType(ns, UserDeviceNode), CountNodesByType(ns, HapsNode),
                              CountNodesByType(ns, BaseStationNode), CountNodesByType(ns, LeoNode);
      |LinkPlan(ns)| == u * h + (if b > 0 then u else 0) + 2 * (b * h) + l * h
    ensures forall s :: s in LinkPlan(ns) ==> WellFormedSpec(s) && s.a in ns && s.b in ns && s.b.kind != UserDeviceNode
  {
    var users, haps, bss, leos := OfKind(ns, UserDeviceNode), OfKind(ns, HapsNode), OfKind(ns, BaseStationNode), OfKind(ns, LeoNode);
    UsersPlanSize(users, haps, bss);
    UsersPlanLinks(users, haps, bss);
    StationsPlanSize(bss, haps);
    StationsPlanLinks(bss, haps);
    LeosPlanSize(leos, haps);
    LeosPlanLinks(leos, haps);
    assert |users| * (|haps| + if bss == [] then 0 else 1) == |users| * |haps| + (if |bss| > 0 then |users| else 0);
  }

  // ----- link construction as network.py writes it -----

  /** A call of `CommunicationLink(...)`: the number of positional arguments and the
      names of the keyword arguments. */
  datatype Call = Call(positional: nat, keywords: set<string>)

  /** The parameters of `CommunicationLink.__init__`, in order; none has a default. */
  const LinkParameters: seq<string> := ["node_a", "node_b", "config"]

  /** Python's binding of a call to `CommunicationLink.__init__`: the positional
      arguments fill the first parameters and the keywords must name exactly the others;
      too many positional arguments, an unexpected keyword, a parameter given twice or
      one left without a value all raise TypeError. */
  function BindLinkCall(c: Call): (r: Result<()>)
    ensures r.Err? ==> r.error == TypeError
    ensures r.Ok? <==>
      && c.positional <= |LinkParameters|
      && (forall k :: k in c.keywords ==> k in LinkParameters[c.positional..])
      && (forall i :: c.positional <= i < |LinkParameters| ==> LinkParameters[i] in c.keywords)
  {
    if c.positional <= |LinkParameters| && c.keywords == (set i | c.positional <= i < |LinkParameters| :: LinkParameters[i])
    then Ok(())
    else Err(TypeError)
  }

  /** Every link construction of `_update_communication_links`: the two end nodes by
      position, then the link parameters by keyword (network.py:78-155). */
  const WrittenLinkCall: Call := Call(2, {"total_bandwidth", "signal_power", "carrier_frequency", "debug"})

  /** The call the constructor accepts: the two end nodes and a `LinkConfig`. */
  const IntendedLinkCall: Call := Call(3, {})

  /** `_update_communication_links` as written: the views are recomputed and the planned
      links are constructed in plan order, each by `WrittenLinkCall`; the first
      construction that raises ends the update. */
  function UpdateLinksAsWritten(ns: seq<BaseNode>): Result<()> {
    if LinkPlan(ns) == [] then Ok(()) else BindLinkCall(WrittenLinkCall)
  }

  lemma PositiveProduct(a: nat, b: nat)
    ensures a * b > 0 <==> a > 0 && b > 0
  {
    if a > 0 && b > 0 {
      assert a * b >= b;
    }
  }

  /** As written, rebuilding the links raises TypeError for every network that has a
      HAPS beside any other compute node or user, or a user beside a base station; the
      constructor binds the intended call instead. */
  lemma UpdateLinksAsWrittenFails(ns: seq<BaseNode>)
    ensures BindLinkCall(WrittenLinkCall) == Err(TypeError) && BindLinkCall(IntendedLinkCall) == Ok(())
    ensures var u, h, b, l := CountNodesByType(ns, UserDeviceNode), CountNodesByType(ns, HapsNode),
                              CountNodesByType(ns, BaseStationNode), CountNodesByType(ns, LeoNode);
      UpdateLinksAsWritten(ns) == (if (h > 0 && u + b + l > 0) || (u > 0 && b > 0) then Err(TypeError) else Ok(()))
  {
    assert "total_bandwidth" in WrittenLinkCall.keywords;
    assert "total_bandwidth" !in set i | 2 <= i < |LinkParameters| :: LinkParameters[i];
    var u, h, b, l := CountNodesByType(ns, UserDeviceNode), CountNodesByType(ns, HapsNode),
                      CountNodesByType(ns, BaseStationNode), CountNodesByType(ns, LeoNode);
    LinkPlanShape(ns);
    PositiveProduct(u, h);
    PositiveProduct(b, h);
    PositiveProduct(l, h);
  }

  /** Every user is linked to every HAPS and, when there is a base station, to the
      closest one (the first on ties). */
  lemma {:induction false} UserIsLinked(users: seq<BaseNode>, haps: seq<BaseNode>, bss: seq<BaseNode>, u: BaseNode)
    requires u in users
    ensures forall h :: h in haps ==> LinkSpec(u, h, UserLinkConfig) in UsersPlan(users, haps, bss)
    ensures bss != [] ==> LinkSpec(u, Closest(u.position, bss), UserLinkConfig) in UsersPlan(users, haps, bss)
  {
    var last := users[|users| - 1];
    if u == last {
      forall h | h in haps ensures LinkSpec(u, h, UserLinkConfig) in UsersPlan(users, haps, bss) {
        var i :| 0 <= i < |haps| && haps[i] == h;
        assert UserPlan(u, haps, bss)[i] == LinkSpec(u, h, UserLinkConfig);
      }
      if bss != [] {
        assert UserPlan(u, haps, bss)[|haps|] == LinkSpec(u, Closest(u.position, bss), UserLinkConfig);
      }
    } else {
      assert u in users[..|users| - 1];
      UserIsLinked(users[..|users| - 1], haps, bss, u);
    }
  }

  /** Every planned link except HAPS -> LEO finds a compatible antenna pair (all its
      endpoints carry a VHF antenna); HAPS -> LEO never does, a LEO having no antenna. */
  lemma PlannedLinksBuild(s: LinkSpec)
    requires WellFormedSpec(s)
    ensures CompatiblePair(s.a.profile.antennas, s.b.profile.antennas).Some? <==> s.b.kind != LeoNode
  {
    if s.b.kind != LeoNode {
      var ia := if s.a.kind == HapsNode then 1 else 0;
      var ib := if s.b.kind == HapsNode then 1 else 0;
      assert s.a.profile.antennas[ia].antennaType == "VHF";
      assert IsCompatibleWith(s.b.profile.antennas[ib], s.a.profile.antennas[ia]);
    }
  }

  /** The nodes of a list, as a frame. */
  function Members(ns: seq<BaseNode>): set<BaseNode> {
    set n | n in ns
  }

  // ----- paths and delays -----

  /** `generate_request_path`: the direct hop when the target is already a destination of
      the source; otherwise a detour through the HAPS closest to the source (the first on
      ties); with no HAPS at all, ValueError. */
  function RequestPath(haps: seq<BaseNode>, source: BaseNode, target: BaseNode): (r: Result<seq<BaseNode>>)
    reads source
    ensures r.Err? <==> target !in source.destinations && haps == []
    ensures r.Err? ==> r.error.ValueError?
    ensures r.Ok? ==> var p := r.value;
      && 2 <= |p| <= 3 && p[0] == source && p[|p| - 1] == target
      && (|p| == 2 <==> target in source.destinations)
      && (|p| == 3 ==> p[1] in haps && forall k :: 0 <= k < |haps| ==> DistSq(source.position, p[1].position) <= DistSq(source.position, haps[k].position))
  {
    if target in source.destinations then Ok([source, target])
    else if |haps| > 0 then
      var k := ArgMinFirst(Dists(source.position, haps));
      Ok([source, haps[k], target])
    else Err(ValueError("No path found for request"))
  }

  /** The links of a list, as a frame. */
  function LinkSet(ls: seq<CommunicationLink>): set<CommunicationLink> {
    set l | l in ls
  }

  /** The receivers of a list of links, whose active-link counters the delays read. */
  function Receivers(ls: seq<CommunicationLink>): set<BaseNode> {
    set l | l in ls :: l.nodeB
  }

  /** The delay of one hop a -> b: the transmission delays of every link with exactly these
      endpoints, added in list order. */
  function HopDelay(ls: seq<CommunicationLink>, a: BaseNode, b: BaseNode, size: real, efficiency: CommunicationLink -> PosReal): (r: real)
    reads Receivers(ls)
    ensures size >= 0.0 ==> r >= 0.0
    ensures (forall i :: 0 <= i < |ls| ==> ls[i].nodeA != a || ls[i].nodeB != b) ==> r == 0.0
  {
    if ls == [] then 0.0
    else
      var l := ls[|ls| - 1];
      HopDelay(ls[..|ls| - 1], a, b, size, efficiency)
        + if l.nodeA == a && l.nodeB == b then l.TransmissionDelay(size, efficiency(l)) else 0.0
  }

  /** `get_network_delay`: the hop delays along consecutive pairs of the path. */
  function PathDelay(ls: seq<CommunicationLink>, path: seq<BaseNode>, size: real, efficiency: CommunicationLink -> PosReal): (r: real)
    reads Receivers(ls)
    ensures size >= 0.0 ==> r >= 0.0
    ensures |path| <= 1 ==> r == 0.0
  {
    if |path| <= 1 then 0.0
    else PathDelay(ls, path[..|path| - 1], size, efficiency) + HopDelay(ls, path[|path| - 2], path[|path| - 1], size, efficiency)
  }

  /** The delay of a path splits at any inner node into the delays of its two parts. */
  lemma {:induction false} PathDelaySplit(ls: seq<CommunicationLink>, p: seq<BaseNode>, q: seq<BaseNode>, size: real, efficiency: CommunicationLink -> PosReal)
    requires |p| > 0 && |q| > 0 && p[|p| - 1] == q[0]
    ensures PathDelay(ls, p + q[1..], size, efficiency) == PathDelay(ls, p, size, efficiency) + PathDelay(ls, q, size, efficiency)
    decreases |q|
  {
    if |q| == 1 {
      assert p + q[1..] == p;
    } else {
      var q' := q[..|q| - 1];
      PathDelaySplit(ls, p, q', size, efficiency);
      assert (p + q[1..])[..|p + q[1..]| - 1] == p + q'[1..];
      assert q'[|q'| - 1] == q[|q| - 2];
    }
  }

  // ----- energy -----

  /** Energy consumed by a list of nodes, added in list order. */
  function EnergyOf(ns: seq<BaseNode>): real
    reads Members(ns)
  {
    if ns == [] then 0.0 else EnergyOf(ns[..|ns| - 1]) + ns[|ns| - 1].energyConsumed
  }

  lemma {:induction false} EnergyOfAppend(a: seq<BaseNode>, b: seq<BaseNode>)
    ensures EnergyOf(a + b) == EnergyOf(a) + EnergyOf(b)
    decreases |b|
  {
    if b == [] {
      assert a + b == a;
    } else {
      assert (a + b)[..|a + b| - 1] == a + b[..|b| - 1];
      EnergyOfAppend(a, b[..|b| - 1]);
    }
  }

  /** The energy of a node list is the energy of its four kind views: the compute-node
      total therefore leaves out exactly the user devices. */
  lemma {:induction false} EnergyByKind(ns: seq<BaseNode>)
    ensures EnergyOf(ns) == EnergyOf(OfKind(ns, UserDeviceNode)) + EnergyOf(OfKind(ns, BaseStationNode))
                          + EnergyOf(OfKind(ns, HapsNode)) + EnergyOf(OfKind(ns, LeoNode))
  {
    if ns != [] {
      EnergyByKind(ns[..|ns| - 1]);
      EnergyOfKindStep(ns, UserDeviceNode);
      EnergyOfKindStep(ns, BaseStationNode);
      EnergyOfKindStep(ns, HapsNode);
      EnergyOfKindStep(ns, LeoNode);
    }
  }

  lemma EnergyOfKindStep(ns: seq<BaseNode>, k: NodeKind)
    requires ns != []
    ensures EnergyOf(OfKind(ns, k)) == EnergyOf(OfKind(ns[..|ns| - 1], k)) + if ns[|ns| - 1].kind == k then ns[|ns| - 1].energyConsumed else 0.0
  {
    var init, last := ns[..|ns| - 1], ns[|ns| - 1];
    if last.kind == k {
      assert OfKind(ns, k) == OfKind(init, k) + [last];
      assert OfKind(ns, k)[..|OfKind(ns, k)| - 1] == OfKind(init, k);
    } else {
      assert OfKind(ns, k) == OfKind(init, k) + [];
      assert OfKind(init, k) + [] == OfKind(init, k);
    }
  }

  /** `get_total_energy_consumed == get_energy_bs + get_energy_haps + get_energy_leo`. */
  lemma TotalEnergySplits(haps: seq<BaseNode>, bss: seq<BaseNode>, leos: seq<BaseNode>)
    ensures EnergyOf(haps + bss + leos) == EnergyOf(bss) + EnergyOf(haps) + EnergyOf(leos)
  {
    EnergyOfAppend(haps + bss, leos);
    EnergyOfAppend(haps, bss);
  }

  // ----- compute nodes -----

  /** `get_compute_nodes`: the nodes that pass `can_process(request, check_state)`, in order. */
  function Capable(ns: seq<BaseNode>, request: Option<Request<BaseNode>>, checkState: bool): (r: seq<BaseNode>)
    reads Members(ns), if request.Some? then {request.value} else {}
    ensures |r| <= |ns|
    ensures forall n :: n in r ==> n in ns && n.CanProcess(request, checkState)
    ensures forall i :: 0 <= i < |ns| && ns[i].CanProcess(request, checkState) ==> ns[i] in r
  {
    if ns == [] then []
    else Capable(ns[..|ns| - 1], request, checkState) + if ns[|ns| - 1].CanProcess(request, checkState) then [ns[|ns| - 1]] else []
  }

  // ----- the network -----


  // ----- ticks -----

  /** The requests waiting in the processing queues of the given nodes. */
  function Queued(ns: seq<BaseNode>): set<Request<BaseNode>>
    reads Members(ns)
  {
    set n, r | n in ns && r in n.processingQueue :: r
  }

  /** What ticking a node `k` times since the method started leaves: one ledger entry per
      tick, the ledger invariant kept, no consumption refunded for non-negative ticks, and
      a queue that only lost requests from its head. */
  twostate predicate Ticked(n: BaseNode, k: nat, time: real)
    reads n
  {
    && |n.energyHistory| == |old(n.energyHistory)| + k
    && (old(n.Valid()) ==> n.Valid())
    && (time >= 0.0 ==> n.energyConsumed >= old(n.energyConsumed))
    && IsSuffix(n.processingQueue, old(n.processingQueue))
  }

  /** What a whole network tick leaves on a node listed `k` times in the node list: one
      ledger entry per listing, and the ledger invariant kept. */
  twostate predicate Settled(n: BaseNode, k: nat)
    reads n
  {
    && |n.energyHistory| == |old(n.energyHistory)| + k
    && (old(n.Valid()) ==> n.Valid())
  }

  /** A request's route, target and size are as they were. */
  twostate predicate Routed(r: Request<BaseNode>)
    reads r
  {
    r.path == old(r.path) && r.pathIndex == old(r.pathIndex) && r.targetNode == old(r.targetNode) && r.size == old(r.size)
  }

  lemma CountOfPrefix<T>(s: seq<T>, i: nat, x: T)
    requires i < |s|
    ensures multiset(s[..i + 1])[x] == multiset(s[..i])[x] + (if x == s[i] then 1 else 0)
  {
    assert s[..i + 1] == s[..i] + [s[i]];
  }

  /** The senders of a list of links, which pay for HAPS transmissions. */
  function Senders(ls: seq<CommunicationLink>): set<BaseNode> {
    set l | l in ls :: l.nodeA
  }

  /** What one link tick does to its queue: either nothing finished, or the old head
      finished and left the queue for the completed list. */
  twostate predicate Transmitted(l: CommunicationLink)
    reads l
  {
    || (l.completedRequests == [] && l.transmissionQueue == old(l.transmissionQueue))
    || (&& |old(l.transmissionQueue)| > 0
        && l.completedRequests == [old(l.transmissionQueue[0])]
        && l.transmissionQueue == old(l.transmissionQueue[1..]))
  }

  /** What the link ticks charge a sender: only a HAPS pays, and for a non-negative tick
      with a non-negative transmission power it pays a non-negative amount. */
  twostate predicate Charged(n: BaseNode, time: real, dbmToWatt: real -> real)
    reads n
  {
    && (n.kind != HapsNode ==> n.energyConsumed == old(n.energyConsumed))
    && (time >= 0.0 && dbmToWatt(n.profile.transmissionPower) >= 0.0 ==> n.energyConsumed >= old(n.energyConsumed))
  }

  /** The index of the first link a -> b in list order, |ls| when there is none. */
  function FirstLink(ls: seq<CommunicationLink>, a: BaseNode, b: BaseNode): (r: nat)
    ensures r <= |ls|
    ensures r < |ls| ==> ls[r].nodeA == a && ls[r].nodeB == b
    ensures forall j :: 0 <= j < r ==> !(ls[j].nodeA == a && ls[j].nodeB == b)
  {
    if ls == [] then 0
    else if ls[0].nodeA == a && ls[0].nodeB == b then 0
    else 1 + FirstLink(ls[1..], a, b)
  }

  /** The completed lists of the links, concatenated in list order. */
  function CompletedSeq(ls: seq<CommunicationLink>): seq<Request<BaseNode>>
    reads LinkSet(ls)
  {
    if ls == [] then [] else CompletedSeq(ls[..|ls| - 1]) + ls[|ls| - 1].completedRequests
  }

  /** The requests on the completed lists. */
  function Finished(ls: seq<CommunicationLink>): set<Request<BaseNode>>
    reads LinkSet(ls)
  {
    set l, r | l in ls && r in l.completedRequests :: r
  }

  /** The concatenation holds exactly the requests on the completed lists. */
  lemma {:induction false} CompletedSeqMembers(ls: seq<CommunicationLink>)
    ensures forall q :: q in CompletedSeq(ls) ==> q in Finished(ls)
    ensures forall q :: q in Finished(ls) ==> q in CompletedSeq(ls)
  {
    if ls != [] {
      var init := ls[..|ls| - 1];
      CompletedSeqMembers(init);
      assert forall l :: l in init ==> l in ls;
      forall q | q in Finished(ls)
        ensures q in CompletedSeq(ls)
      {
        var l :| l in ls && q in l.completedRequests;
        if l != ls[|ls| - 1] {
          var k :| 0 <= k < |ls| && ls[k] == l;
          assert l == init[k];
        }
      }
    }
  }

  /** The nodes on the paths of some requests. */
  function PathNodes(rs: set<Request<BaseNode>>): set<BaseNode>
    reads rs
  {
    set r, n | r in rs && n in r.path :: n
  }

  /** A request forwarded `c` times since the method started: its hop index advanced by
      `c` along an unchanged path, and stayed within the path if it moved at all. */
  twostate predicate Hopped(q: Request<BaseNode>, c: nat)
    reads q
  {
    && q.pathIndex == old(q.pathIndex) + c
    && q.path == old(q.path)
    && (c > 0 ==> q.pathIndex <= |q.path|)
  }

  /** The nodes on the paths of a list of requests, as they are now. */
  function PathsOf(rs: seq<Request<BaseNode>>): set<BaseNode>
    reads set r | r in rs
  {
    set r, n | r in rs && n in r.path :: n
  }

  /** How many times `x` appears in `s`. */
  function Occurrences<T(==)>(s: seq<T>, x: T): (r: nat)
    ensures r <= |s|
  {
    if s == [] then 0 else Occurrences(s[..|s| - 1], x) + (if s[|s| - 1] == x then 1 else 0)
  }

  lemma OccurrencesStep<T>(s: seq<T>, j: nat, x: T)
    requires j < |s|
    ensures Occurrences(s[..j + 1], x) == Occurrences(s[..j], x) + (if s[j] == x then 1 else 0)
  {
    assert s[..j + 1][..j] == s[..j];
  }

  lemma {:induction false} OccurrencesOfPrefix<T>(s: seq<T>, k: nat, x: T)
    requires k <= |s|
    ensures Occurrences(s[..k], x) <= Occurrences(s, x)
    decreases |s|
  {
    if k < |s| {
      assert s[..|s| - 1][..k] == s[..k];
      OccurrencesOfPrefix(s[..|s| - 1], k, x);
    } else {
      assert s[..k] == s;
    }
  }

  lemma {:induction false} OccurrencesOfMember<T>(s: seq<T>, x: T)
    requires x in s
    ensures Occurrences(s, x) > 0
  {
    if s[|s| - 1] != x {
      assert x in s[..|s| - 1];
      OccurrencesOfMember(s[..|s| - 1], x);
    }
  }

  /** The requests waiting on the transmission queues of some links. */
  function InFlight(ls: seq<CommunicationLink>): set<Request<BaseNode>>
    reads LinkSet(ls)
  {
    set l, r | l in ls && r in l.transmissionQueue :: r
  }

  /** What a whole network tick does to a link: at most its old head finished, and
      forwarding only appended to what remained. */
  /** A request a link tick finished was in flight before the tick. */
  twostate lemma FinishedWereInFlight(ls: seq<CommunicationLink>)
    requires forall l :: l in ls ==> Transmitted(l)
    ensures Finished(ls) <= old(InFlight(ls))
  {
    forall q | q in Finished(ls)
      ensures q in old(InFlight(ls))
    {
      var l :| l in ls && q in l.completedRequests;
      assert Transmitted(l);
      assert q == old(l.transmissionQueue)[0];
      assert q in old(l.transmissionQueue);
    }
  }

  twostate predicate Advanced(l: CommunicationLink)
    reads l
  {
    || (l.completedRequests == [] && old(l.transmissionQueue) <= l.transmissionQueue)
    || (&& |old(l.transmissionQueue)| > 0
        && l.completedRequests == [old(l.transmissionQueue[0])]
        && old(l.transmissionQueue[1..]) <= l.transmissionQueue)
  }

  /** If no node's consumption went down, neither did their total. */
  twostate lemma {:induction false} EnergyNeverDrops(ns: seq<BaseNode>)
    requires forall n :: n in ns ==> old(n.energyConsumed) <= n.energyConsumed
    ensures old(EnergyOf(ns)) <= EnergyOf(ns)
    decreases |ns|
  {
    if ns != [] {
      EnergyNeverDrops(ns[..|ns| - 1]);
    }
  }

  /** `a` is what remains of `b` after dropping some of its head. */
  predicate IsSuffix<T(==)>(a: seq<T>, b: seq<T>) {
    |a| <= |b| && a == b[|b| - |a|..]
  }

  /** Dropping the head of a suffix leaves a suffix. */
  lemma SuffixTail<T>(a: seq<T>, b: seq<T>)
    requires IsSuffix(a, b) && |a| > 0
    ensures IsSuffix(a[1..], b)
  {
    assert b[|b| - |a|..][1..] == b[|b| - |a[1..]|..];
  }

  /** The head of a non-empty suffix is an element of the whole. */
  lemma SuffixHead<T>(a: seq<T>, b: seq<T>)
    requires IsSuffix(a, b) && |a| > 0
    ensures a[0] in b
  {
    assert a[0] == b[|b| - |a|];
  }

  /** One node's tick as the network tick relies on it: one more ledger entry, the ledger
      invariant kept, no refund for a non-negative tick, at most the head leaves the
      queue, and the head keeps its route, target and size. */
  method TickNode(n: BaseNode, time: real, now: int)
    modifies n`state, n`energyConsumed, n`currentLoad, n`processingQueue, n`lastTickEnergy
    modifies n`energyHistory, n`lastStateChange, n.Head()
    ensures |n.energyHistory| == |old(n.energyHistory)| + 1
    ensures old(n.Valid()) ==> n.Valid()
    ensures time >= 0.0 ==> n.energyConsumed >= old(n.energyConsumed)
    ensures n.processingQueue == old(n.processingQueue) || (|old(n.processingQueue)| > 0 && n.processingQueue == old(n.processingQueue[1..]))
    ensures forall r :: r in old(n.Head()) ==> Routed(r)
  {
    n.Tick(time, now);
  }

  class Network {
    var nodes: seq<BaseNode>
    var links: seq<CommunicationLink>
    var computeNodes: seq<BaseNode>
    var hapsNodes: seq<BaseNode>
    var userNodes: seq<BaseNode>
    var baseStations: seq<BaseNode>
    var leoNodes: seq<BaseNode>

    /** The typed views are the order-preserving kind filters of `nodes`. */
    ghost predicate ViewsMatch()
      reads this
    {
      && hapsNodes == OfKind(nodes, HapsNode) && userNodes == OfKind(nodes, UserDeviceNode)
      && baseStations == OfKind(nodes, BaseStationNode) && leoNodes == OfKind(nodes, LeoNode)
      && computeNodes == hapsNodes + baseStations + leoNodes
    }

    /** No link object occurs twice in `links`. */
    ghost predicate LinksDistinct()
      reads this
    {
      forall i, j :: 0 <= i < j < |links| ==> links[i] != links[j]
    }

    /** Every link's receiver is recorded among its sender's destinations. */
    ghost predicate LinksRecorded()
      reads this, set l | l in links :: l.nodeA
    {
      forall l :: l in links ==> l.nodeB in l.nodeA.destinations
    }

    /** An empty network. `user_nodes` is first assigned by `add_node`; it starts empty here. */
    constructor ()
      ensures nodes == [] && links == [] && ViewsMatch()
    {
      nodes, links := [], [];
      computeNodes, hapsNodes, userNodes, baseStations, leoNodes := [], [], [], [], [];
    }

    /** One `CommunicationLink(a, b, config)` appended to the link list: it fails, with
        nothing changed, exactly when no antenna pair matches. */
    method Connect(a: BaseNode, b: BaseNode, config: LinkConfig) returns (ok: bool)
      modifies this`links, a`destinations
      ensures ok <==> CompatiblePair(a.profile.antennas, b.profile.antennas).Some?
      ensures ok ==> |links| == |old(links)| + 1 && links[..|old(links)|] == old(links)
                     && SpecOf(links[|old(links)|]) == LinkSpec(a, b, config)
                     && a.destinations == old(a.destinations) + [b]
      ensures !ok ==> links == old(links) && a.destinations == old(a.destinations)
      ensures old(LinksDistinct()) ==> LinksDistinct()
      ensures old(LinksRecorded()) ==> LinksRecorded()
    {
      var link := CommunicationLink.Create(a, b, config);
      if link.Err? {
        return false;
      }
      links := links + [link.value];
      assert links[..|old(links)|] == old(links);
      return true;
    }

    /** A planned link that always builds, appended to the links realising `done`. */
    method ConnectPlanned(s: LinkSpec, ghost done: seq<LinkSpec>)
      requires WellFormedSpec(s) && s.b.kind != LeoNode
      requires Realizes(links, done) && LinksDistinct() && LinksRecorded()
      modifies this`links, s.a`destinations
      ensures Realizes(links, done + [s]) && LinksDistinct() && LinksRecorded()
    {
      PlannedLinksBuild(s);
      var ok := Connect(s.a, s.b, s.config);
    }

    /** One user's links: every HAPS in order, then the closest base station if any. */
    method ConnectUser(u: BaseNode, haps: seq<BaseNode>, bss: seq<BaseNode>, ghost done: seq<LinkSpec>)
      requires u.kind == UserDeviceNode
      requires forall n :: n in haps ==> n.kind == HapsNode
      requires forall n :: n in bss ==> n.kind == BaseStationNode
      requires Realizes(links, done) && LinksDistinct() && LinksRecorded()
      modifies this`links, u`destinations
      ensures Realizes(links, done + UserPlan(u, haps, bss)) && LinksDistinct() && LinksRecorded()
    {
      var j := 0;
      while j < |haps|
        invariant 0 <= j <= |haps|
        invariant Realizes(links, done + ToEach(u, haps[..j], UserLinkConfig)) && LinksDistinct() && LinksRecorded()
      {
        ConnectPlanned(LinkSpec(u, haps[j], UserLinkConfig), done + ToEach(u, haps[..j], UserLinkConfig));
        assert ToEach(u, haps[..j + 1], UserLinkConfig) == ToEach(u, haps[..j], UserLinkConfig) + [LinkSpec(u, haps[j], UserLinkConfig)];
        j := j + 1;
      }
      assert haps[..j] == haps;
      var found, k := ClosestIndex(u.position, bss);
      if found {
        ConnectPlanned(LinkSpec(u, bss[k], UserLinkConfig), done + ToEach(u, haps, UserLinkConfig));
      }
    }

    /** One base station's links: for every HAPS in order, BS -> HAPS then HAPS -> BS. */
    method ConnectStation(b: BaseNode, haps: seq<BaseNode>, ghost done: seq<LinkSpec>)
      requires b.kind == BaseStationNode
      requires forall n :: n in haps ==> n.kind == HapsNode
      requires Realizes(links, done) && LinksDistinct() && LinksRecorded()
      modifies this`links, b`destinations, Members(haps)`destinations
      ensures Realizes(links, done + StationPlan(b, haps)) && LinksDistinct() && LinksRecorded()
    {
      var j := 0;
      while j < |haps|
        invariant 0 <= j <= |haps|
        invariant Realizes(links, done + StationPlan(b, haps[..j])) && LinksDistinct() && LinksRecorded()
      {
        var h := haps[j];
        ghost var before := done + StationPlan(b, haps[..j]);
        ConnectPlanned(LinkSpec(b, h, BsToHapsConfig), before);
        ConnectPlanned(LinkSpec(h, b, HapsToBsConfig), before + [LinkSpec(b, h, BsToHapsConfig)]);
        assert haps[..j + 1][..j] == haps[..j];
        assert done + StationPlan(b, haps[..j + 1]) == before + [LinkSpec(b, h, BsToHapsConfig)] + [LinkSpec(h, b, HapsToBsConfig)];
        j := j + 1;
      }
      assert haps[..j] == haps;
    }

    /** The LEO section for one LEO: HAPS -> LEO for every HAPS. A LEO carries no antenna,
        so the first of these links raises ValueError and the loop never gets further. */
    method ConnectLeo(l: BaseNode, haps: seq<BaseNode>) returns (ok: bool)
      requires l.kind == LeoNode
      requires forall n :: n in haps ==> n.kind == HapsNode
      modifies this`links, Members(haps)`destinations
      ensures ok <==> haps == []
      ensures links == old(links) && (old(LinksRecorded()) ==> LinksRecorded())
    {
      if haps == [] {
        return true;
      }
      PlannedLinksBuild(LinkSpec(haps[0], l, HapsToLeoConfig));
      ok := Connect(haps[0], l, HapsToLeoConfig);
    }

    /** The LEO section: every LEO in order; it stops at the first failure. */
    method ConnectLeos(leos: seq<BaseNode>, haps: seq<BaseNode>) returns (ok: bool)
      requires forall n :: n in haps ==> n.kind == HapsNode
      requires forall n :: n in leos ==> n.kind == LeoNode
      modifies this`links, Members(haps)`destinations
      ensures ok <==> leos == [] || haps == []
      ensures links == old(links) && (old(LinksRecorded()) ==> LinksRecorded())
    {
      var i := 0;
      while i < |leos|
        invariant 0 <= i <= |leos|
        invariant haps == [] || i == 0
        invariant links == old(links) && (old(LinksRecorded()) ==> LinksRecorded())
      {
        ok := ConnectLeo(leos[i], haps);
        if !ok {
          return false;
        }
        i := i + 1;
      }
      return true;
    }

    /** The user section: every user in order. */
    method ConnectUsers(users: seq<BaseNode>, haps: seq<BaseNode>, bss: seq<BaseNode>, ghost done: seq<LinkSpec>)
      requires forall n :: n in users ==> n.kind == UserDeviceNode
      requires forall n :: n in haps ==> n.kind == HapsNode
      requires forall n :: n in bss ==> n.kind == BaseStationNode
      requires Realizes(links, done) && LinksDistinct() && LinksRecorded()
      modifies this`links, Members(users)`destinations
      ensures Realizes(links, done + UsersPlan(users, haps, bss)) && LinksDistinct() && LinksRecorded()
    {
      var i := 0;
      while i < |users|
        invariant 0 <= i <= |users|
        invariant Realizes(links, done + UsersPlan(users[..i], haps, bss)) && LinksDistinct() && LinksRecorded()
      {
        ghost var prefix := UsersPlan(users[..i], haps, bss);
        ConnectUser(users[i], haps, bss, done + prefix);
        assert users[..i + 1][..i] == users[..i];
        assert UsersPlan(users[..i + 1], haps, bss) == prefix + UserPlan(users[i], haps, bss);
        assert done + (prefix + UserPlan(users[i], haps, bss)) == done + prefix + UserPlan(users[i], haps, bss);
        i := i + 1;
      }
      assert users[..i] == users;
    }

    /** The base-station section: every base station in order. */
    method ConnectStations(bss: seq<BaseNode>, haps: seq<BaseNode>, ghost done: seq<LinkSpec>)
      requires forall n :: n in haps ==> n.kind == HapsNode
      requires forall n :: n in bss ==> n.kind == BaseStationNode
      requires Realizes(links, done) && LinksDistinct() && LinksRecorded()
      modifies this`links, Members(bss)`destinations, Members(haps)`destinations
      ensures Realizes(links, done + StationsPlan(bss, haps)) && LinksDistinct() && LinksRecorded()
    {
      var i := 0;
      while i < |bss|
        invariant 0 <= i <= |bss|
        invariant Realizes(links, done + StationsPlan(bss[..i], haps)) && LinksDistinct() && LinksRecorded()
      {
        ghost var prefix := StationsPlan(bss[..i], haps);
        ConnectStation(bss[i], haps, done + prefix);
        assert bss[..i + 1][..i] == bss[..i];
        assert StationsPlan(bss[..i + 1], haps) == prefix + StationPlan(bss[i], haps);
        assert done + (prefix + StationPlan(bss[i], haps)) == done + prefix + StationPlan(bss[i], haps);
        i := i + 1;
      }
      assert bss[..i] == bss;
    }

    /** The three link sections in order, starting from an empty link list; the LEO
        section fails exactly when there is a LEO and a HAPS. */
    method BuildLinks(users: seq<BaseNode>, haps: seq<BaseNode>, bss: seq<BaseNode>, leos: seq<BaseNode>) returns (ok: bool)
      requires forall n :: n in users ==> n.kind == UserDeviceNode
      requires forall n :: n in haps ==> n.kind == HapsNode
      requires forall n :: n in bss ==> n.kind == BaseStationNode
      requires forall n :: n in leos ==> n.kind == LeoNode
      requires links == []
      modifies this`links, Members(users)`destinations, Members(bss)`destinations, Members(haps)`destinations
      ensures ok <==> leos == [] || haps == []
      ensures ok ==> Realizes(links, UsersPlan(users, haps, bss) + StationsPlan(bss, haps) + LeosPlan(leos, haps))
      ensures !ok ==> Realizes(links, UsersPlan(users, haps, bss) + StationsPlan(bss, haps))
      ensures LinksDistinct() && LinksRecorded()
    {
      ConnectUsers(users, haps, bss, []);
      assert [] + UsersPlan(users, haps, bss) == UsersPlan(users, haps, bss);
      ConnectStations(bss, haps, UsersPlan(users, haps, bss));
      ok := ConnectLeos(leos, haps);
      if ok {
        LeosPlanSize(leos, haps);
        assert LeosPlan(leos, haps) == [];
        assert UsersPlan(users, haps, bss) + StationsPlan(bss, haps) + LeosPlan(leos, haps) == UsersPlan(users, haps, bss) + StationsPlan(bss, haps);
      }
    }

    /** `_update_communication_links`: the views are recomputed and the link list rebuilt
        from scratch by the topology rule. It fails with ValueError, after the user and
        base-station sections, exactly when a LEO and a HAPS are both present. */
    method UpdateLinks() returns (r: Result<()>)
      modifies this, Members(nodes)`destinations
      ensures nodes == old(nodes) && ViewsMatch()
      ensures r.Ok? <==> leoNodes == [] || hapsNodes == []
      ensures r.Ok? ==> Realizes(links, LinkPlan(nodes))
      ensures r.Err? ==> r.error.ValueError? && Realizes(links, UsersPlan(userNodes, hapsNodes, baseStations) + StationsPlan(baseStations, hapsNodes))
      ensures LinksDistinct() && LinksRecorded()
    {
      var users, haps, bss, leos := OfKind(nodes, UserDeviceNode), OfKind(nodes, HapsNode), OfKind(nodes, BaseStationNode), OfKind(nodes, LeoNode);
      links, userNodes, hapsNodes, baseStations, leoNodes := [], users, haps, bss, leos;
      computeNodes := haps + bss + leos;
      var ok := BuildLinks(users, haps, bss, leos);
      assert ViewsMatch();
      if !ok {
        return Err(ValueError("No compatible antennas found"));
      }
      return Ok(());
    }

    /** `add_node`: the node is appended, then the links are rebuilt. */
    method AddNode(n: BaseNode) returns (r: Result<()>)
      modifies this, Members(nodes)`destinations, n`destinations
      ensures nodes == old(nodes) + [n] && ViewsMatch()
      ensures r.Ok? <==> leoNodes == [] || hapsNodes == []
      ensures r.Ok? ==> Realizes(links, LinkPlan(nodes))
      ensures r.Err? ==> r.error.ValueError? && Realizes(links, UsersPlan(userNodes, hapsNodes, baseStations) + StationsPlan(baseStations, hapsNodes))
      ensures LinksDistinct() && LinksRecorded()
    {
      nodes := nodes + [n];
      r := UpdateLinks();
    }

    /** `count_nodes_by_type`. */
    function CountNodes(k: NodeKind): (r: nat)
      reads this
      ensures r <= |nodes|
    {
      CountNodesByType(nodes, k)
    }

    /** `get_compute_nodes(request, check_state)`. */
    function GetComputeNodes(request: Option<Request<BaseNode>>, checkState: bool): (r: seq<BaseNode>)
      reads this, Members(computeNodes), if request.Some? then {request.value} else {}
      ensures forall n :: n in r ==> n in computeNodes && n.CanProcess(request, checkState)
      ensures forall i :: 0 <= i < |computeNodes| && computeNodes[i].CanProcess(request, checkState) ==> computeNodes[i] in r
    {
      Capable(computeNodes, request, checkState)
    }

    /** `generate_request_path(source, target)`: the closest-HAPS scan, then the first of
        the three cases. */
    method GenerateRequestPath(source: BaseNode, target: BaseNode) returns (r: Result<seq<BaseNode>>)
      ensures r == RequestPath(hapsNodes, source, target)
    {
      var found, k := ClosestIndex(source.position, hapsNodes);
      if target in source.destinations {
        return Ok([source, target]);
      }
      if found {
        return Ok([source, hapsNodes[k], target]);
      }
      return Err(ValueError("No path found for request"));
    }

    /** `get_network_delay(request, path)`: for every consecutive pair of the path, every
        link with exactly those endpoints adds its transmission delay. */
    method GetNetworkDelay(request: Request<BaseNode>, path: seq<BaseNode>, efficiency: CommunicationLink -> PosReal) returns (time: real)
      ensures time == PathDelay(links, path, request.size, efficiency)
    {
      time := 0.0;
      if |path| == 0 {
        return;
      }
      var i := 0;
      while i < |path| - 1
        invariant 0 <= i <= |path| - 1
        invariant time == PathDelay(links, path[..i + 1], request.size, efficiency)
      {
        var j := 0;
        ghost var before := time;
        while j < |links|
          invariant 0 <= j <= |links|
          invariant time == before + HopDelay(links[..j], path[i], path[i + 1], request.size, efficiency)
        {
          var link := links[j];
          assert links[..j + 1][..j] == links[..j];
          if link.nodeA == path[i] && link.nodeB == path[i + 1] {
            time := time + link.TransmissionDelay(request.size, efficiency(link));
          }
          j := j + 1;
        }
        assert links[..j] == links;
        assert path[..i + 2][..i + 1] == path[..i + 1];
        i := i + 1;
      }
      assert path[..i + 1] == path;
    }

    /** The running sum of `energy_consumed` over a node list. */
    static method SumEnergy(ns: seq<BaseNode>) returns (total: real)
      ensures total == EnergyOf(ns)
    {
      total := 0.0;
      var i := 0;
      while i < |ns|
        invariant 0 <= i <= |ns|
        invariant total == EnergyOf(ns[..i])
      {
        assert ns[..i + 1][..i] == ns[..i];
        total := total + ns[i].energyConsumed;
        i := i + 1;
      }
      assert ns[..i] == ns;
    }

    /** `get_total_energy_consumed`: over the compute nodes, so user devices are left out. */
    method GetTotalEnergyConsumed() returns (total: real)
      ensures total == EnergyOf(computeNodes)
      ensures ViewsMatch() ==> total == EnergyOf(nodes) - EnergyOf(userNodes)
    {
      total := SumEnergy(computeNodes);
      if ViewsMatch() {
        EnergyByKind(nodes);
        TotalEnergySplits(hapsNodes, baseStations, leoNodes);
      }
    }

    /** `get_energy_bs`. */
    method GetEnergyBs() returns (total: real)
      ensures total == EnergyOf(baseStations)
    {
      total := SumEnergy(baseStations);
    }

    /** `get_energy_haps`. */
    method GetEnergyHaps() returns (total: real)
      ensures total == EnergyOf(hapsNodes)
    {
      total := SumEnergy(hapsNodes);
    }

    /** `get_energy_leo`. */
    method GetEnergyLeo() returns (total: real)
      ensures total == EnergyOf(leoNodes)
    {
      total := SumEnergy(leoNodes);
    }

    /** The node part of `tick`: every node of the list ticks once per occurrence, in list
        order. Each node writes one ledger entry per tick and keeps its ledger invariant,
        its consumption never goes down, its queue only loses requests from its head, and
        the requests keep their route, target and size. */
    method TickNodes(time: real, now: int)
      modifies Members(nodes)`state, Members(nodes)`energyConsumed, Members(nodes)`currentLoad
      modifies Members(nodes)`processingQueue, Members(nodes)`lastTickEnergy, Members(nodes)`energyHistory
      modifies Members(nodes)`lastStateChange, Queued(nodes)
      ensures forall n :: n in nodes ==> Ticked(n, multiset(nodes)[n], time)
      ensures forall r :: r in old(Queued(nodes)) ==> Routed(r)
    {
      var ns := nodes;
      var i := 0;
      while i < |ns|
        invariant 0 <= i <= |ns|
        invariant forall n :: n in ns ==> Ticked(n, multiset(ns[..i])[n], time)
        invariant forall r :: r in old(Queued(nodes)) ==> Routed(r)
      {
        var node := ns[i];
        ghost var q := node.processingQueue;
        assert node.Head() <= old(Queued(ns)) by {
          if |q| > 0 {
            SuffixHead(q, old(node.processingQueue));
            assert node in ns;
          }
        }
        ghost var k := multiset(ns[..i])[node];
        ghost var head := node.Head();
        assert Ticked(node, k, time);
        label Before:
        TickNode(node, time, now);
        forall r | r in old(Queued(nodes))
          ensures Routed(r)
        {
          if r in head {
            assert r.path == old@Before(r.path) && r.pathIndex == old@Before(r.pathIndex);
            assert r.targetNode == old@Before(r.targetNode) && r.size == old@Before(r.size);
          }
        }
        if node.processingQueue != q {
          SuffixTail(q, old(node.processingQueue));
        }
        assert Ticked(node, k + 1, time);
        forall n | n in ns && n != node
          ensures Ticked(n, multiset(ns[..i])[n], time)
        {
          assert unchanged@Before(n);
        }
        forall n | n in ns
          ensures Ticked(n, multiset(ns[..i + 1])[n], time)
        {
          CountOfPrefix(ns, i, n);
        }
        i := i + 1;
      }
      assert ns[..i] == ns;
    }

    /** The link part of `tick`: every link ticks once, so each either finishes its head
        or keeps its queue, and only HAPS senders pay for transmitting. */
    method TickLinks(time: real, efficiency: CommunicationLink -> PosReal, dbmToWatt: real -> real)
      requires LinksDistinct()
      modifies LinkSet(links)`transmissionQueue, LinkSet(links)`requestProgress, LinkSet(links)`completedRequests
      modifies Senders(links)`energyConsumed
      ensures forall l :: l in links ==> Transmitted(l)
      ensures forall n :: n in Senders(links) ==> Charged(n, time, dbmToWatt)
    {
      var ls := links;
      var i := 0;
      while i < |ls|
        invariant 0 <= i <= |ls|
        invariant forall j :: 0 <= j < i ==> Transmitted(ls[j])
        invariant forall j :: i <= j < |ls| ==>
          ls[j].transmissionQueue == old(ls[j].transmissionQueue) && ls[j].completedRequests == old(ls[j].completedRequests)
        invariant forall n :: n in Senders(ls) ==> Charged(n, time, dbmToWatt)
      {
        var link := ls[i];
        link.Tick(time, efficiency(link), dbmToWatt);
        i := i + 1;
      }
    }

    /** Forwarding of one request whose transmission just completed (the body of the loop
        over `completed_requests` in `tick`). The hop index must point into the path, or
        IndexError is raised with nothing changed; otherwise it advances. At the end of the
        path the request is handed to the node it reached if that node is its target;
        before the end it joins the queue of the first link towards the next hop, which
        becomes its next node, and with no such link it is dropped. */
    method ForwardOne(request: Request<BaseNode>, now: int) returns (r: Result<()>)
      modifies request, LinkSet(links)`transmissionQueue, LinkSet(links)`requestProgress
      modifies Members(request.path)`processingQueue, Members(request.path)`currentLoad
      ensures r.Ok? <==> old(request.pathIndex) < |old(request.path)|
      ensures r.Err? ==> r.error == IndexError && unchanged(request)
      ensures request.path == old(request.path) && request.size == old(request.size)
      ensures request.targetNode == old(request.targetNode)
      ensures r.Ok? ==> request.pathIndex == old(request.pathIndex) + 1
      ensures forall l :: l in links ==> old(l.transmissionQueue) <= l.transmissionQueue
      ensures forall n :: n in old(request.path) ==> old(n.processingQueue) <= n.processingQueue
      ensures r.Ok? && request.pathIndex == |request.path| ==>
        var cur := request.path[request.pathIndex - 1];
        && (forall l :: l in links ==> l.transmissionQueue == old(l.transmissionQueue))
        && request.nextNode == old(request.nextNode)
        && (forall n :: n in request.path && n != cur ==> n.processingQueue == old(n.processingQueue))
        && cur.processingQueue ==
             if request.targetNode == Some(cur) && old(cur.CanProcess(Some(request), false))
             then old(cur.processingQueue) + [request] else old(cur.processingQueue)
      ensures r.Ok? && request.pathIndex < |request.path| ==>
        var cur := request.path[request.pathIndex - 1];
        var next := request.path[request.pathIndex];
        var k := FirstLink(links, cur, next);
        && (forall n :: n in request.path ==> n.processingQueue == old(n.processingQueue))
        && (forall l :: l in links && (k == |links| || l != links[k]) ==> l.transmissionQueue == old(l.transmissionQueue))
        && (k < |links| ==>
              links[k].transmissionQueue == old(links[k].transmissionQueue) + [request]
              && request.nextNode == Some(next))
        && (k == |links| ==> request.nextNode == old(request.nextNode))
    {
      if request.pathIndex >= |request.path| {
        return Err(IndexError);
      }
      var current := request.path[request.pathIndex];
      request.pathIndex := request.pathIndex + 1;
      if request.pathIndex >= |request.path| {
        if request.targetNode == Some(current) {
          current.AddRequestToProcess(request, now);
        }
        return Ok(());
      }
      var next := request.path[request.pathIndex];
      var j := 0;
      while j < |links|
        invariant 0 <= j <= |links|
        invariant forall m :: 0 <= m < j ==> !(links[m].nodeA == current && links[m].nodeB == next)
      {
        var link := links[j];
        if link.nodeA == current && link.nodeB == next {
          link.AddToQueue(request);
          request.nextNode := Some(next);
          return Ok(());
        }
        j := j + 1;
      }
      return Ok(());
    }

    /** `ForwardOne` as the loop over all completed requests needs it: the hop index
        advances along an unchanged path, and queues only grow. */
    method ForwardStep(request: Request<BaseNode>, now: int) returns (r: Result<()>)
      modifies request, LinkSet(links)`transmissionQueue, LinkSet(links)`requestProgress
      modifies Members(request.path)`processingQueue, Members(request.path)`currentLoad
      ensures r.Ok? <==> old(request.pathIndex) < |old(request.path)|
      ensures r.Err? ==> r.error == IndexError
      ensures request.path == old(request.path)
      ensures r.Ok? ==> request.pathIndex == old(request.pathIndex) + 1
      ensures forall l :: l in links ==> old(l.transmissionQueue) <= l.transmissionQueue
      ensures forall n :: n in old(request.path) ==> old(n.processingQueue) <= n.processingQueue
    {
      r := ForwardOne(request, now);
    }

    /** The forwarding part of `tick`: the completed requests of every link, link by link,
        each forwarded one hop. It succeeds exactly when no request runs past the end of
        its path, counting one hop per appearance; then every hop index has advanced by
        that count. It only ever appends to link and node queues. */
    method ForwardCompleted(now: int) returns (r: Result<()>)
      modifies Finished(links), LinkSet(links)`transmissionQueue, LinkSet(links)`requestProgress
      modifies PathNodes(Finished(links))`processingQueue, PathNodes(Finished(links))`currentLoad
      ensures r.Err? ==> r.error == IndexError
      ensures r.Ok? <==> forall q :: q in old(Finished(links)) ==>
        old(q.pathIndex) + Occurrences(old(CompletedSeq(links)), q) <= |old(q.path)|
      ensures r.Ok? ==> forall q :: q in old(Finished(links)) ==>
        q.pathIndex == old(q.pathIndex) + Occurrences(old(CompletedSeq(links)), q)
      ensures forall q :: q in old(Finished(links)) ==> q.path == old(q.path)
      ensures forall l :: l in links ==> old(l.transmissionQueue) <= l.transmissionQueue
      ensures forall n :: n in old(PathNodes(Finished(links))) ==> old(n.processingQueue) <= n.processingQueue
    {
      // Forwarding never touches a completed list, so walking their concatenation visits
      // the same requests in the same order as the loop over links and their lists.
      var all := CompletedSeq(links);
      CompletedSeqMembers(links);
      assert PathNodes(Finished(links)) == PathsOf(all);
      r := ForwardAll(all, now);
    }

    /** Forwarding, one hop each, of the requests of `all` in order, stopping at the first
        IndexError. */
    method ForwardAll(all: seq<Request<BaseNode>>, now: int) returns (r: Result<()>)
      modifies all, LinkSet(links)`transmissionQueue, LinkSet(links)`requestProgress
      modifies PathsOf(all)`processingQueue, PathsOf(all)`currentLoad
      ensures r.Err? ==> r.error == IndexError
      ensures r.Ok? <==> forall q :: q in all ==> old(q.pathIndex) + Occurrences(all, q) <= |old(q.path)|
      ensures r.Ok? ==> forall q :: q in all ==> q.pathIndex == old(q.pathIndex) + Occurrences(all, q)
      ensures forall q :: q in all ==> q.path == old(q.path)
      ensures forall l :: l in links ==> old(l.transmissionQueue) <= l.transmissionQueue
      ensures forall n :: n in old(PathsOf(all)) ==> old(n.processingQueue) <= n.processingQueue
    {
      ghost var onPaths := PathsOf(all);
      var j := 0;
      while j < |all|
        invariant 0 <= j <= |all|
        invariant forall q :: q in all ==> Hopped(q, Occurrences(all[..j], q))
        invariant forall l :: l in links ==> old(l.transmissionQueue) <= l.transmissionQueue
        invariant forall n :: n in onPaths ==> old(n.processingQueue) <= n.processingQueue
      {
        var request := all[j];
        assert request in all;
        ghost var c := Occurrences(all[..j], request);
        assert Hopped(request, c);
        ghost var idx := request.pathIndex;
        assert Members(request.path) <= onPaths by {
          assert request.path == old(request.path);
        }
        var step := ForwardStep(request, now);
        if step.Err? {
          assert idx >= |old(request.path)|;
          OccurrencesStep(all, j, request);
          OccurrencesOfPrefix(all, j + 1, request);
          assert old(request.pathIndex) + Occurrences(all, request) > |old(request.path)|;
          return step;
        }
        forall q | q in all
          ensures Hopped(q, Occurrences(all[..j + 1], q))
        {
          OccurrencesStep(all, j, q);
        }
        j := j + 1;
      }
      assert all[..j] == all;
      forall q | q in all
        ensures old(q.pathIndex) + Occurrences(all, q) <= |old(q.path)|
      {
        OccurrencesOfMember(all, q);
        assert Hopped(q, Occurrences(all, q));
      }
      return Ok(());
    }

    /** `tick`: the nodes, then the links, then the forwarding of what the links finished.
        Every node writes one ledger entry per occurrence in the node list and keeps its
        ledger invariant; with a non-negative tick and transmit power no node's
        consumption, and so no energy total, goes down; every link finished at most its
        old head and otherwise only grew; the only error is IndexError. */
    method Tick(time: real, now: int, efficiency: CommunicationLink -> PosReal, dbmToWatt: real -> real) returns (r: Result<()>)
      requires LinksDistinct()
      modifies Members(nodes), Queued(nodes), LinkSet(links), Senders(links), InFlight(links)
      modifies PathNodes(InFlight(links))
      ensures r.Err? ==> r.error == IndexError
      ensures forall n :: n in nodes ==> Settled(n, multiset(nodes)[n])
    {
      var ns := nodes;
      TickNodes(time, now);
      label NodesTicked:
      r := Exchange(time, now, efficiency, dbmToWatt);
      forall n | n in ns
        ensures Settled(n, multiset(ns)[n])
      {
        assert |old@NodesTicked(n.energyHistory)| == |old(n.energyHistory)| + multiset(ns)[n];
        assert old(n.Valid()) ==> old@NodesTicked(n.Valid());
      }
    }

    /** The link half of `tick`: every link transmits, then what the links finished is
        forwarded. Only HAPS senders are charged, and never negatively when the tick and
        the transmit power are non-negative. */
    method Exchange(time: real, now: int, efficiency: CommunicationLink -> PosReal, dbmToWatt: real -> real) returns (r: Result<()>)
      requires LinksDistinct()
      modifies LinkSet(links)`transmissionQueue, LinkSet(links)`requestProgress, LinkSet(links)`completedRequests
      modifies Senders(links)`energyConsumed, InFlight(links)
      modifies PathNodes(InFlight(links))`processingQueue, PathNodes(InFlight(links))`currentLoad
      ensures r.Err? ==> r.error == IndexError
      ensures forall n :: n in Senders(links) ==> Charged(n, time, dbmToWatt)
      ensures forall l :: l in links ==> Advanced(l)
    {
      TickLinks(time, efficiency, dbmToWatt);
      label LinksTicked:
      FinishedWereInFlight(links);
      ghost var senders := Senders(links);
      r := ForwardCompleted(now);
      forall n | n in senders
        ensures Charged(n, time, dbmToWatt)
      {
        assert n.energyConsumed == old@LinksTicked(n.energyConsumed);
      }
      forall l | l in links
        ensures Advanced(l)
      {
        assert old@LinksTicked(l.transmissionQueue) <= l.transmissionQueue;
        assert l.completedRequests == old@LinksTicked(l.completedRequests);
      }
    }
  }

  /** After a successful rebuild, a user reaches every HAPS, and its closest base station,
      in one hop: the link construction recorded them among its destinations. */
  lemma UserReachesDirectly(net: Network, u: BaseNode, t: BaseNode)
    requires net.ViewsMatch() && Realizes(net.links, LinkPlan(net.nodes)) && net.LinksRecorded()
    requires u in net.nodes && u.kind == UserDeviceNode
    requires (t in net.hapsNodes) || (net.baseStations != [] && t == Closest(u.position, net.baseStations))
    ensures RequestPath(net.hapsNodes, u, t) == Ok([u, t])
  {
    var users, haps, bss := net.userNodes, net.hapsNodes, net.baseStations;
    var s := LinkSpec(u, t, UserLinkConfig);
    assert u in users;
    UserIsLinked(users, haps, bss, u);
    assert s in LinkPlan(net.nodes);
    var i :| 0 <= i < |net.links| && LinkPlan(net.nodes)[i] == s;
    assert SpecOf(net.links[i]) == s;
    assert net.links[i] in net.links;
  }
}
