/** The assignment strategies of algorithms/assignment/: each picks a compute node for a
    request and returns it with the path to it and a cost, or (None, None, inf) when it
    has nothing to pick. Time-greedy and energy-greedy price every candidate and keep the
    first strict minimum; closest-node and HAPS-only keep the first strictly closest
    candidate, building a path only when a candidate improves on the best so far; random
    picks any candidate; matrix-based reads the next entry of a preset assignment list. */
module Assignment {
  import opened Common
  import opened Requests
  import opened Nodes
  import opened Links
  import opened Networks

  /** `(best_node, best_path, cost)`: `NoNode` is `(None, None, inf)`. */
  datatype Selection = NoNode | Selected(node: BaseNode, path: seq<BaseNode>, cost: real)

  // ----- the running minimum over priced candidates -----

  /** A candidate with the outcome of pricing it: its path and cost, or the exception. */
  datatype Candidate = Candidate(node: BaseNode, outcome: Result<(seq<BaseNode>, real)>)

  /** One step of the running minimum: the candidate replaces the best so far when there
      is none yet (the best cost starts at +inf) or when it is strictly cheaper. */
  function Better(best: Selection, n: BaseNode, path: seq<BaseNode>, cost: real): Selection {
    if best.NoNode? || cost < best.cost then Selected(n, path, cost) else best
  }

  /** The loop of time-greedy and energy-greedy: candidates priced in list order, the
      first exception escapes, otherwise the running minimum. */
  function Scan(cs: seq<Candidate>): Result<Selection> {
    if cs == [] then Ok(NoNode) else Step(Scan(cs[..|cs| - 1]), cs[|cs| - 1])
  }

  /** One iteration of the running minimum. */
  function Step(acc: Result<Selection>, c: Candidate): Result<Selection> {
    match acc
    case Err(e) => Err(e)
    case Ok(best) =>
      match c.outcome
      case Err(e) => Err(e)
      case Ok((p, t)) => Ok(Better(best, c.node, p, t))
  }

  lemma ScanNext(cs: seq<Candidate>, i: nat)
    requires i < |cs|
    ensures Scan(cs[..i + 1]) == Step(Scan(cs[..i]), cs[i])
  {
    assert cs[..i + 1][..i] == cs[..i];
  }

  /** Candidate k costs no more than any candidate and strictly less than every earlier one. */
  ghost predicate FirstCheapest(cs: seq<Candidate>, k: int)
    requires forall i :: 0 <= i < |cs| ==> cs[i].outcome.Ok?
  {
    && 0 <= k < |cs|
    && (forall j :: 0 <= j < |cs| ==> cs[k].outcome.value.1 <= cs[j].outcome.value.1)
    && (forall j :: 0 <= j < k ==> cs[k].outcome.value.1 < cs[j].outcome.value.1)
  }

  /** The running minimum fails exactly when some candidate fails, with the first failure;
      otherwise it is `(None, None, inf)` for no candidates and else the first cheapest
      candidate, with the path and cost it was priced at. */
  lemma {:induction false} ScanSpec(cs: seq<Candidate>)
    ensures Scan(cs).Err? <==> exists i :: 0 <= i < |cs| && cs[i].outcome.Err?
    ensures Scan(cs).Err? ==> exists i :: 0 <= i < |cs| && cs[i].outcome == Err(Scan(cs).error)
                                 && forall j :: 0 <= j < i ==> cs[j].outcome.Ok?
    ensures Scan(cs).Ok? ==> (Scan(cs).value.NoNode? <==> cs == [])
    ensures Scan(cs).Ok? && cs != [] ==>
      exists k :: FirstCheapest(cs, k)
        && Scan(cs).value == Selected(cs[k].node, cs[k].outcome.value.0, cs[k].outcome.value.1)
  {
    if cs != [] {
      var init := cs[..|cs| - 1];
      var c := cs[|cs| - 1];
      ScanSpec(init);
      assert forall i :: 0 <= i < |init| ==> init[i] == cs[i];
      match Scan(init)
      case Err(e) =>
        var i :| 0 <= i < |init| && init[i].outcome == Err(e) && forall j :: 0 <= j < i ==> init[j].outcome.Ok?;
        assert cs[i].outcome == Err(Scan(cs).error);
      case Ok(best) =>
        if c.outcome.Ok? {
          if init != [] {
            var k :| FirstCheapest(init, k) && best == Selected(init[k].node, init[k].outcome.value.0, init[k].outcome.value.1);
            if c.outcome.value.1 < best.cost {
              assert FirstCheapest(cs, |cs| - 1);
            } else {
              assert FirstCheapest(cs, k);
            }
          } else {
            assert FirstCheapest(cs, 0);
          }
        } else {
          assert cs[|cs| - 1].outcome == Err(Scan(cs).error);
        }
    }
  }

  // ----- pricing by time and by energy -----

  /** What a candidate is priced on: the request's processing-time estimate there, the path
      from the request's current node, and the network delay of that path. */
  function PathTo(net: Network, request: Request<BaseNode>, c: BaseNode): Result<seq<BaseNode>>
    reads net, request, request.currentNode
  {
    RequestPath(net.hapsNodes, request.currentNode, c)
  }

  /** Time-greedy price: estimated processing time plus network delay. The estimate comes
      first, so a node that cannot compute (zero frequency) fails before its path is built. */
  function TimeCost(net: Network, request: Request<BaseNode>, c: BaseNode, efficiency: CommunicationLink -> PosReal): Result<(seq<BaseNode>, real)>
    reads net, request, request.currentNode, c, Receivers(net.links)
  {
    match c.EstimatedProcessingTime(request)
    case Err(e) => Err(e)
    case Ok(t) =>
      match PathTo(net, request, c)
      case Err(e) => Err(e)
      case Ok(p) => Ok((p, t + PathDelay(net.links, p, request.size, efficiency)))
  }

  function TimeCandidates(net: Network, request: Request<BaseNode>, nodes: seq<BaseNode>, efficiency: CommunicationLink -> PosReal): (r: seq<Candidate>)
    reads net, request, request.currentNode, Members(nodes), Receivers(net.links)
    ensures |r| == |nodes|
    ensures forall i :: 0 <= i < |nodes| ==> r[i] == Candidate(nodes[i], TimeCost(net, request, nodes[i], efficiency))
  {
    if nodes == [] then []
    else TimeCandidates(net, request, nodes[..|nodes| - 1], efficiency)
           + [Candidate(nodes[|nodes| - 1], TimeCost(net, request, nodes[|nodes| - 1], efficiency))]
  }

  /** `sum(node.transmission_energy() for node in path[:-1])`: every node of the path but
      the last pays its transmission power converted from dBm to watts. */
  function TransmissionEnergy(path: seq<BaseNode>, dbmToWatt: real -> real): real {
    if |path| <= 1 then 0.0
    else TransmissionEnergy(path[..|path| - 1], dbmToWatt) + dbmToWatt(path[|path| - 2].profile.transmissionPower)
  }

  /** Energy-greedy price: processing power times the estimated time, plus the
      transmission energy of the path. */
  function EnergyCost(net: Network, request: Request<BaseNode>, c: BaseNode, dbmToWatt: real -> real): Result<(seq<BaseNode>, real)>
    reads net, request, request.currentNode, c
  {
    match c.EstimatedProcessingTime(request)
    case Err(e) => Err(e)
    case Ok(t) =>
      match PathTo(net, request, c)
      case Err(e) => Err(e)
      case Ok(p) => Ok((p, ProcessingEnergy(c.profile) * t + TransmissionEnergy(p, dbmToWatt)))
  }

  function EnergyCandidates(net: Network, request: Request<BaseNode>, nodes: seq<BaseNode>, dbmToWatt: real -> real): (r: seq<Candidate>)
    reads net, request, request.currentNode, Members(nodes)
    ensures |r| == |nodes|
    ensures forall i :: 0 <= i < |nodes| ==> r[i] == Candidate(nodes[i], EnergyCost(net, request, nodes[i], dbmToWatt))
  {
    if nodes == [] then []
    else EnergyCandidates(net, request, nodes[..|nodes| - 1], dbmToWatt)
           + [Candidate(nodes[|nodes| - 1], EnergyCost(net, request, nodes[|nodes| - 1], dbmToWatt))]
  }

  /** `TimeGreedyAssignment.select_compute_node`: the running minimum over the candidates
      priced by time (see `TimeGreedyChoice`). */
  method SelectTimeGreedy(net: Network, request: Request<BaseNode>, nodes: seq<BaseNode>, efficiency: CommunicationLink -> PosReal)
    returns (r: Result<Selection>)
    ensures r == Scan(TimeCandidates(net, request, nodes, efficiency))
  {
    ghost var cs := TimeCandidates(net, request, nodes, efficiency);
    var best := NoNode;
    var i := 0;
    assert cs[..0] == [];
    while i < |nodes|
      invariant 0 <= i <= |nodes|
      invariant cs == TimeCandidates(net, request, nodes, efficiency)
      invariant Scan(cs[..i]) == Ok(best)
    {
      var c := nodes[i];
      ScanNext(cs, i);
      var priced := TimeCost(net, request, c, efficiency);
      assert cs[i] == Candidate(c, priced);
      if priced.Err? {
        r := Err(priced.error);
        ScanPrefixError(cs, i + 1);
        return;
      }
      best := Better(best, c, priced.value.0, priced.value.1);
      i := i + 1;
    }
    assert cs[..i] == cs;
    r := Ok(best);
  }

  /** `EnergyGreedyAssignment.select_compute_node`: the running minimum over the
      candidates priced by energy (see `EnergyGreedyChoice`). */
  method SelectEnergyGreedy(net: Network, request: Request<BaseNode>, nodes: seq<BaseNode>, dbmToWatt: real -> real)
    returns (r: Result<Selection>)
    ensures r == Scan(EnergyCandidates(net, request, nodes, dbmToWatt))
  {
    ghost var cs := EnergyCandidates(net, request, nodes, dbmToWatt);
    var best := NoNode;
    var i := 0;
    assert cs[..0] == [];
    while i < |nodes|
      invariant 0 <= i <= |nodes|
      invariant cs == EnergyCandidates(net, request, nodes, dbmToWatt)
      invariant Scan(cs[..i]) == Ok(best)
    {
      var c := nodes[i];
      ScanNext(cs, i);
      var priced := EnergyCost(net, request, c, dbmToWatt);
      assert cs[i] == Candidate(c, priced);
      if priced.Err? {
        r := Err(priced.error);
        ScanPrefixError(cs, i + 1);
        return;
      }
      best := Better(best, c, priced.value.0, priced.value.1);
      i := i + 1;
    }
    assert cs[..i] == cs;
    r := Ok(best);
  }

  /** Price i is an error, the first one in the list. */
  ghost predicate FirstFailing(costs: seq<Result<(seq<BaseNode>, real)>>, e: Error) {
    exists i :: && 0 <= i < |costs| && costs[i] == Err(e)
                && forall j :: 0 <= j < i ==> costs[j].Ok?
  }

  /** `s` is node k with the path and cost it was priced at, where every price is a value,
      none is below price k, and every earlier price is strictly above it. */
  ghost predicate CheapestChoice(nodes: seq<BaseNode>, costs: seq<Result<(seq<BaseNode>, real)>>, s: Selection)
    requires |costs| == |nodes|
  {
    exists k :: && 0 <= k < |nodes| && costs[k].Ok?
                && s == Selected(nodes[k], costs[k].value.0, costs[k].value.1)
                && (forall j :: 0 <= j < |nodes| ==> costs[j].Ok? && costs[k].value.1 <= costs[j].value.1)
                && (forall j :: 0 <= j < k ==> costs[k].value.1 < costs[j].value.1)
  }

  /** The running minimum over nodes priced by `costs`, in the prices' own terms: none for
      no node, the first failing price, or a first cheapest node. */
  lemma PricedChoice(cs: seq<Candidate>, nodes: seq<BaseNode>, costs: seq<Result<(seq<BaseNode>, real)>>)
    requires |cs| == |nodes| == |costs|
    requires forall i :: 0 <= i < |cs| ==> cs[i] == Candidate(nodes[i], costs[i])
    ensures Scan(cs).Ok? ==> (Scan(cs).value.NoNode? <==> nodes == [])
    ensures Scan(cs).Err? ==> FirstFailing(costs, Scan(cs).error)
    ensures Scan(cs).Ok? && nodes != [] ==> CheapestChoice(nodes, costs, Scan(cs).value)
  {
    ScanSpec(cs);
  }

  /** The time price of each node, in order. */
  function TimeCosts(net: Network, request: Request<BaseNode>, nodes: seq<BaseNode>, efficiency: CommunicationLink -> PosReal): (r: seq<Result<(seq<BaseNode>, real)>>)
    reads net, request, request.currentNode, Members(nodes), Receivers(net.links)
    ensures |r| == |nodes|
    ensures forall i :: 0 <= i < |nodes| ==> r[i] == TimeCost(net, request, nodes[i], efficiency)
  {
    seq(|nodes|, i requires 0 <= i < |nodes| reads net, request, request.currentNode, Members(nodes), Receivers(net.links) =>
      TimeCost(net, request, nodes[i], efficiency))
  }

  /** The energy price of each node, in order. */
  function EnergyCosts(net: Network, request: Request<BaseNode>, nodes: seq<BaseNode>, dbmToWatt: real -> real): (r: seq<Result<(seq<BaseNode>, real)>>)
    reads net, request, request.currentNode, Members(nodes)
    ensures |r| == |nodes|
    ensures forall i :: 0 <= i < |nodes| ==> r[i] == EnergyCost(net, request, nodes[i], dbmToWatt)
  {
    seq(|nodes|, i requires 0 <= i < |nodes| reads net, request, request.currentNode, Members(nodes) =>
      EnergyCost(net, request, nodes[i], dbmToWatt))
  }

  /** Time-greedy in the strategy's own terms: no candidate gives (None, None, inf); an
      exception comes from the first candidate whose pricing raises; otherwise the chosen
      node is the first candidate of least estimated time plus network delay, returned
      with the path and the cost it was priced at. */
  lemma TimeGreedyChoice(net: Network, request: Request<BaseNode>, nodes: seq<BaseNode>, efficiency: CommunicationLink -> PosReal)
    ensures var r := Scan(TimeCandidates(net, request, nodes, efficiency));
      r.Ok? ==> (r.value.NoNode? <==> nodes == [])
    ensures var r := Scan(TimeCandidates(net, request, nodes, efficiency));
      r.Err? ==> FirstFailing(TimeCosts(net, request, nodes, efficiency), r.error)
    ensures var r := Scan(TimeCandidates(net, request, nodes, efficiency));
      r.Ok? && nodes != [] ==> CheapestChoice(nodes, TimeCosts(net, request, nodes, efficiency), r.value)
  {
    PricedChoice(TimeCandidates(net, request, nodes, efficiency), nodes, TimeCosts(net, request, nodes, efficiency));
  }

  /** Energy-greedy in the strategy's own terms: as time-greedy, with each candidate
      priced by its processing energy plus the transmission energy of its path. */
  lemma EnergyGreedyChoice(net: Network, request: Request<BaseNode>, nodes: seq<BaseNode>, dbmToWatt: real -> real)
    ensures var r := Scan(EnergyCandidates(net, request, nodes, dbmToWatt));
      r.Ok? ==> (r.value.NoNode? <==> nodes == [])
    ensures var r := Scan(EnergyCandidates(net, request, nodes, dbmToWatt));
      r.Err? ==> FirstFailing(EnergyCosts(net, request, nodes, dbmToWatt), r.error)
    ensures var r := Scan(EnergyCandidates(net, request, nodes, dbmToWatt));
      r.Ok? && nodes != [] ==> CheapestChoice(nodes, EnergyCosts(net, request, nodes, dbmToWatt), r.value)
  {
    PricedChoice(EnergyCandidates(net, request, nodes, dbmToWatt), nodes, EnergyCosts(net, request, nodes, dbmToWatt));
  }

  /** Once the running minimum has failed on a prefix, it fails the same way on the whole list. */
  lemma {:induction false} ScanPrefixError(cs: seq<Candidate>, n: nat)
    requires n <= |cs| && Scan(cs[..n]).Err?
    ensures Scan(cs) == Scan(cs[..n])
    decreases |cs| - n
  {
    if n < |cs| {
      assert cs[..n + 1][..n] == cs[..n];
      ScanPrefixError(cs, n + 1);
    } else {
      assert cs[..n] == cs;
    }
  }

  // ----- the closest candidate -----

  /** A candidate with its squared distance from the request's node and the path to it. */
  datatype Probe = Probe(node: BaseNode, dist: real, path: Result<seq<BaseNode>>)

  /** The loop of closest-node and HAPS-only: the distance decides, and the path is built
      only when a candidate is strictly closer than the best so far (or is the first), so
      only those candidates can raise. The result is (node, path, squared distance). */
  function LazyScan(ps: seq<Probe>): Result<Option<(BaseNode, seq<BaseNode>, real)>> {
    if ps == [] then Ok(None) else LazyStep(LazyScan(ps[..|ps| - 1]), ps[|ps| - 1])
  }

  /** One iteration of the lazy running minimum. */
  function LazyStep(acc: Result<Option<(BaseNode, seq<BaseNode>, real)>>, p: Probe): Result<Option<(BaseNode, seq<BaseNode>, real)>> {
    match acc
    case Err(e) => Err(e)
    case Ok(best) =>
      if best.None? || p.dist < best.value.2 then
        match p.path
        case Err(e) => Err(e)
        case Ok(path) => Ok(Some((p.node, path, p.dist)))
      else Ok(best)
  }

  lemma LazyScanNext(ps: seq<Probe>, i: nat)
    requires i < |ps|
    ensures LazyScan(ps[..i + 1]) == LazyStep(LazyScan(ps[..i]), ps[i])
  {
    assert ps[..i + 1][..i] == ps[..i];
  }

  /** Candidate k is strictly closer than every earlier one, so the running minimum
      replaces its best with it. */
  ghost predicate Record(ps: seq<Probe>, k: int) {
    0 <= k < |ps| && forall j :: 0 <= j < k ==> ps[k].dist < ps[j].dist
  }

  /** Candidate k is a record holder with a path and no candidate is closer. */
  ghost predicate ClosestAt(ps: seq<Probe>, k: int) {
    Record(ps, k) && ps[k].path.Ok? && forall j :: 0 <= j < |ps| ==> ps[k].dist <= ps[j].dist
  }

  /** The lazy running minimum fails exactly when a candidate that improved on all earlier
      ones has no path, and then with the first such failure; otherwise it finds nothing
      for no candidates, and else the first closest candidate with its path. */
  lemma {:induction false} LazyScanSpec(ps: seq<Probe>)
    ensures LazyScan(ps).Err? <==> exists k :: Record(ps, k) && ps[k].path.Err?
    ensures LazyScan(ps).Err? ==> exists k :: FirstFailure(ps, k) && ps[k].path == Err(LazyScan(ps).error)
    ensures LazyScan(ps).Ok? ==> (LazyScan(ps).value.None? <==> ps == [])
    ensures LazyScan(ps).Ok? && ps != [] ==>
      exists k :: ClosestAt(ps, k) && LazyScan(ps).value.value == (ps[k].node, ps[k].path.value, ps[k].dist)
  {
    if ps != [] {
      var init := ps[..|ps| - 1];
      LazyScanSpec(init);
      assert LazyScan(ps) == LazyStep(LazyScan(init), ps[|ps| - 1]);
      match LazyScan(init)
      case Err(e) =>
        var k :| FirstFailure(init, k) && init[k].path == Err(e);
        LazyFailureKept(ps, k);
      case Ok(best) =>
        if init == [] {
          assert Record(ps, 0);
          if ps[0].path.Ok? {
            assert ClosestAt(ps, 0);
          } else {
            assert FirstFailure(ps, 0);
          }
        } else {
          var k :| ClosestAt(init, k) && best.value == (init[k].node, init[k].path.value, init[k].dist);
          if ps[|ps| - 1].dist < init[k].dist {
            LazyImproved(ps, init, k);
          } else {
            LazyKept(ps, k);
          }
        }
    }
  }

  /** Candidate k is the first record holder without a path. */
  ghost predicate FirstFailure(ps: seq<Probe>, k: int) {
    Record(ps, k) && ps[k].path.Err? && forall j :: 0 <= j < k && Record(ps, j) ==> ps[j].path.Ok?
  }

  /** A failure on the list without its last candidate is the failure on the whole list. */
  lemma LazyFailureKept(ps: seq<Probe>, k: int)
    requires 0 <= k < |ps| - 1 && FirstFailure(ps[..|ps| - 1], k)
    ensures FirstFailure(ps, k) && ps[k].path == ps[..|ps| - 1][k].path
  {
    RecordPrefix(ps, k);
    forall j | 0 <= j < k && Record(ps, j) ensures ps[j].path.Ok? {
      RecordPrefix(ps, j);
    }
  }

  /** The last candidate is strictly closer than the closest of the others: it is a record
      holder, the closest one when it has a path and the first failure otherwise. */
  lemma LazyImproved(ps: seq<Probe>, init: seq<Probe>, k: int)
    requires ps != [] && init == ps[..|ps| - 1]
    requires 0 <= k < |init| && ClosestAt(init, k) && ps[|ps| - 1].dist < ps[k].dist
    requires forall j :: Record(init, j) ==> init[j].path.Ok?
    ensures ps[|ps| - 1].path.Ok? ==> ClosestAt(ps, |ps| - 1)
    ensures ps[|ps| - 1].path.Err? ==> FirstFailure(ps, |ps| - 1)
    ensures forall m :: Record(ps, m) && m < |ps| - 1 ==> Record(init, m)
  {
    var last := |ps| - 1;
    forall m | Record(ps, m) && m < last ensures Record(init, m) {
      RecordPrefix(ps, m);
    }
    forall j | 0 <= j < last ensures ps[last].dist < ps[j].dist {
      assert init[j] == ps[j];
    }
    assert Record(ps, last);
    if ps[last].path.Err? {
      forall j | 0 <= j < last && Record(ps, j) ensures ps[j].path.Ok? {
        RecordPrefix(ps, j);
      }
    }
  }

  /** The last candidate is no closer than the closest of the others: that one stays the
      closest, and the last candidate is no record holder. */
  lemma LazyKept(ps: seq<Probe>, k: int)
    requires 0 <= k < |ps| - 1 && ClosestAt(ps[..|ps| - 1], k) && !(ps[|ps| - 1].dist < ps[k].dist)
    ensures ClosestAt(ps, k)
    ensures !Record(ps, |ps| - 1)
    ensures forall m :: Record(ps, m) && m < |ps| - 1 ==> Record(ps[..|ps| - 1], m)
  {
    var init := ps[..|ps| - 1];
    RecordPrefix(ps, k);
    forall j | 0 <= j < |ps| ensures ps[k].dist <= ps[j].dist {
      if j < |ps| - 1 {
        assert init[j] == ps[j];
      }
    }
    forall m | Record(ps, m) && m < |ps| - 1 ensures Record(init, m) {
      RecordPrefix(ps, m);
    }
  }

  /** A record holder of the list without its last candidate is one of the whole list. */
  lemma RecordPrefix(ps: seq<Probe>, k: int)
    requires 0 <= k < |ps| - 1
    ensures Record(ps[..|ps| - 1], k) <==> Record(ps, k)
  {
    assert forall j :: 0 <= j <= k ==> ps[..|ps| - 1][j] == ps[j];
  }

  /** The probes of the candidates: squared distance from the request's current node
      (ordering as the distance does) and the path `generate_request_path` would build. */
  function Probes(net: Network, request: Request<BaseNode>, nodes: seq<BaseNode>): (r: seq<Probe>)
    reads net, request, request.currentNode
    ensures |r| == |nodes|
    ensures forall i :: 0 <= i < |nodes| ==>
      r[i] == Probe(nodes[i], DistSq(request.currentNode.position, nodes[i].position), PathTo(net, request, nodes[i]))
  {
    if nodes == [] then []
    else Probes(net, request, nodes[..|nodes| - 1])
           + [Probe(nodes[|nodes| - 1], DistSq(request.currentNode.position, nodes[|nodes| - 1].position), PathTo(net, request, nodes[|nodes| - 1]))]
  }

  /** The value returned after the closest-candidate loop: the network delay of the chosen
      path, or (None, None, inf) when nothing was chosen. */
  function Delayed(net: Network, request: Request<BaseNode>, found: Result<Option<(BaseNode, seq<BaseNode>, real)>>, efficiency: CommunicationLink -> PosReal): Result<Selection>
    reads net, request, Receivers(net.links)
  {
    match found
    case Err(e) => Err(e)
    case Ok(None) => Ok(NoNode)
    case Ok(Some((n, p, _))) => Ok(Selected(n, p, PathDelay(net.links, p, request.size, efficiency)))
  }

  /** The tail of every selection: the path from the request's current node to the chosen
      node, then the network delay along it; a path that cannot be built raises. */
  method Route(net: Network, request: Request<BaseNode>, node: BaseNode, efficiency: CommunicationLink -> PosReal)
    returns (r: Result<Selection>)
    ensures r.Err? <==> PathTo(net, request, node).Err?
    ensures r.Err? ==> r.error == PathTo(net, request, node).error
    ensures r.Ok? ==>
      (&& r.value.Selected? && r.value.node == node
       && PathTo(net, request, node) == Ok(r.value.path)
       && r.value.cost == PathDelay(net.links, r.value.path, request.size, efficiency))
  {
    var path := net.GenerateRequestPath(request.currentNode, node);
    if path.Err? {
      return Err(path.error);
    }
    var delay := net.GetNetworkDelay(request, path.value, efficiency);
    r := Ok(Selected(node, path.value, delay));
  }

  /** The closest-candidate loop shared by closest-node and HAPS-only. */
  method ClosestScan(net: Network, request: Request<BaseNode>, nodes: seq<BaseNode>) returns (r: Result<Option<(BaseNode, seq<BaseNode>, real)>>)
    ensures r == LazyScan(Probes(net, request, nodes))
  {
    ghost var ps := Probes(net, request, nodes);
    var best: Option<(BaseNode, seq<BaseNode>, real)> := None;
    var i := 0;
    while i < |nodes|
      invariant 0 <= i <= |nodes|
      invariant ps == Probes(net, request, nodes)
      invariant LazyScan(ps[..i]) == Ok(best)
    {
      var c := nodes[i];
      LazyScanNext(ps, i);
      var distance := DistSq(request.currentNode.position, c.position);
      if best.None? || distance < best.value.2 {
        var path := PathTo(net, request, c);
        if path.Err? {
          r := Err(path.error);
          LazyPrefixError(ps, i + 1);
          return;
        }
        best := Some((c, path.value, distance));
      }
      i := i + 1;
    }
    assert ps[..i] == ps;
    r := Ok(best);
  }

  /** Once the lazy running minimum has failed on a prefix, it fails the same way on the whole list. */
  lemma {:induction false} LazyPrefixError(ps: seq<Probe>, n: nat)
    requires n <= |ps| && LazyScan(ps[..n]).Err?
    ensures LazyScan(ps) == LazyScan(ps[..n])
    decreases |ps| - n
  {
    if n < |ps| {
      assert ps[..n + 1][..n] == ps[..n];
      LazyPrefixError(ps, n + 1);
    } else {
      assert ps[..n] == ps;
    }
  }

  /** `ClosestNodeAssignment.select_compute_node`: the lazy running minimum over the
      candidates' distances, then the network delay of the chosen path (see `ClosestChoice`). */
  method SelectClosest(net: Network, request: Request<BaseNode>, nodes: seq<BaseNode>, efficiency: CommunicationLink -> PosReal)
    returns (r: Result<Selection>)
    ensures r == Delayed(net, request, LazyScan(Probes(net, request, nodes)), efficiency)
  {
    var found := ClosestScan(net, request, nodes);
    if found.Err? {
      return Err(found.error);
    }
    if found.value.None? {
      return Ok(NoNode);
    }
    var (n, p, _) := found.value.value;
    var delay := net.GetNetworkDelay(request, p, efficiency);
    r := Ok(Selected(n, p, delay));
  }

  /** Closest-node in the strategy's own terms: no candidate gives (None, None, inf); a
      path failure escapes only from a candidate that was strictly closer than all earlier
      ones; otherwise the chosen node is the first candidate at minimal distance from the
      request's node, returned with its path and that path's network delay. */
  lemma ClosestChoice(net: Network, request: Request<BaseNode>, nodes: seq<BaseNode>, efficiency: CommunicationLink -> PosReal)
    ensures var r := Delayed(net, request, LazyScan(Probes(net, request, nodes)), efficiency);
      && (r.Ok? ==> (r.value.NoNode? <==> nodes == []))
      && (r.Err? ==> exists k :: Record(Probes(net, request, nodes), k) && PathTo(net, request, nodes[k]) == Err(r.error))
      && (r.Ok? && nodes != [] ==>
            exists k :: (&& 0 <= k < |nodes| && PathTo(net, request, nodes[k]).Ok?
                         && r.value == Selected(nodes[k], PathTo(net, request, nodes[k]).value,
                                                PathDelay(net.links, PathTo(net, request, nodes[k]).value, request.size, efficiency))
                         && (forall j :: 0 <= j < |nodes| ==> DistSq(request.currentNode.position, nodes[k].position) <= DistSq(request.currentNode.position, nodes[j].position))
                         && (forall j :: 0 <= j < k ==> DistSq(request.currentNode.position, nodes[k].position) < DistSq(request.currentNode.position, nodes[j].position))))
  {
    ClosestNone(net, request, nodes, efficiency);
    if LazyScan(Probes(net, request, nodes)).Err? {
      ClosestFailure(net, request, nodes, efficiency);
    } else if nodes != [] {
      ClosestSelection(net, request, nodes, efficiency);
    }
  }

  /** The empty half of `ClosestChoice`. */
  lemma ClosestNone(net: Network, request: Request<BaseNode>, nodes: seq<BaseNode>, efficiency: CommunicationLink -> PosReal)
    ensures var r := Delayed(net, request, LazyScan(Probes(net, request, nodes)), efficiency);
      r.Ok? ==> (r.value.NoNode? <==> nodes == [])
  {
    LazyScanSpec(Probes(net, request, nodes));
  }

  /** The failure half of `ClosestChoice`. */
  lemma ClosestFailure(net: Network, request: Request<BaseNode>, nodes: seq<BaseNode>, efficiency: CommunicationLink -> PosReal)
    requires LazyScan(Probes(net, request, nodes)).Err?
    ensures var r := Delayed(net, request, LazyScan(Probes(net, request, nodes)), efficiency);
      exists k :: Record(Probes(net, request, nodes), k) && PathTo(net, request, nodes[k]) == Err(r.error)
  {
    var ps := Probes(net, request, nodes);
    LazyScanSpec(ps);
    var k :| FirstFailure(ps, k) && ps[k].path == Err(LazyScan(ps).error);
    assert ps[k].path == PathTo(net, request, nodes[k]);
  }

  /** The selection half of `ClosestChoice`. */
  lemma ClosestSelection(net: Network, request: Request<BaseNode>, nodes: seq<BaseNode>, efficiency: CommunicationLink -> PosReal)
    requires nodes != [] && LazyScan(Probes(net, request, nodes)).Ok?
    ensures var r := Delayed(net, request, LazyScan(Probes(net, request, nodes)), efficiency);
            exists k :: (&& 0 <= k < |nodes| && PathTo(net, request, nodes[k]).Ok?
                         && r.value == Selected(nodes[k], PathTo(net, request, nodes[k]).value,
                                                PathDelay(net.links, PathTo(net, request, nodes[k]).value, request.size, efficiency))
                         && (forall j :: 0 <= j < |nodes| ==> DistSq(request.currentNode.position, nodes[k].position) <= DistSq(request.currentNode.position, nodes[j].position))
                         && (forall j :: 0 <= j < k ==> DistSq(request.currentNode.position, nodes[k].position) < DistSq(request.currentNode.position, nodes[j].position)))
  {
    var ps := Probes(net, request, nodes);
    LazyScanSpec(ps);
    var found := LazyScan(ps);
    var k :| ClosestAt(ps, k) && found.value.value == (ps[k].node, ps[k].path.value, ps[k].dist);
    ClosestInNodes(net, request, nodes, k);
    var p := PathTo(net, request, nodes[k]).value;
    assert Delayed(net, request, found, efficiency).value == Selected(nodes[k], p, PathDelay(net.links, p, request.size, efficiency));
  }

  /** A closest probe is a closest node, with the path built for it. */
  lemma ClosestInNodes(net: Network, request: Request<BaseNode>, nodes: seq<BaseNode>, k: int)
    requires ClosestAt(Probes(net, request, nodes), k)
    ensures 0 <= k < |nodes| && Probes(net, request, nodes)[k].node == nodes[k]
    ensures Probes(net, request, nodes)[k].path == PathTo(net, request, nodes[k])
    ensures forall j :: 0 <= j < |nodes| ==> DistSq(request.currentNode.position, nodes[k].position) <= DistSq(request.currentNode.position, nodes[j].position)
    ensures forall j :: 0 <= j < k ==> DistSq(request.currentNode.position, nodes[k].position) < DistSq(request.currentNode.position, nodes[j].position)
  {
    var ps := Probes(net, request, nodes);
    var d := DistSq(request.currentNode.position, nodes[k].position);
    forall j | 0 <= j < |nodes|
      ensures d <= DistSq(request.currentNode.position, nodes[j].position)
    {
      assert ps[j].dist == DistSq(request.currentNode.position, nodes[j].position);
    }
    forall j | 0 <= j < k
      ensures d < DistSq(request.currentNode.position, nodes[j].position)
    {
      assert ps[j].dist == DistSq(request.currentNode.position, nodes[j].position);
    }
  }

  /** `HAPSOnlyAssignment.select_compute_node`: the closest-candidate choice among the
      HAPS candidates only, in their list order; none gives (None, None, inf)
      (see `HapsOnlyChoice`). */
  method SelectHapsOnly(net: Network, request: Request<BaseNode>, nodes: seq<BaseNode>, efficiency: CommunicationLink -> PosReal)
    returns (r: Result<Selection>)
    ensures r == Delayed(net, request, LazyScan(Probes(net, request, OfKind(nodes, HapsNode))), efficiency)
  {
    var haps := OfKind(nodes, HapsNode);
    if haps == [] {
      return Ok(NoNode);
    }
    var found := ClosestScan(net, request, haps);
    if found.Err? {
      return Err(found.error);
    }
    var (n, p, _) := found.value.value;
    var delay := net.GetNetworkDelay(request, p, efficiency);
    r := Ok(Selected(n, p, delay));
  }

  /** HAPS-only in the strategy's own terms: nothing is selected exactly when no candidate
      is a HAPS; a selected node is a HAPS among the candidates, no farther from the
      request's node than any HAPS candidate, with its path and that path's delay. */
  lemma HapsOnlyChoice(net: Network, request: Request<BaseNode>, nodes: seq<BaseNode>, efficiency: CommunicationLink -> PosReal)
    ensures var r := Delayed(net, request, LazyScan(Probes(net, request, OfKind(nodes, HapsNode))), efficiency);
      && (r.Ok? ==> (r.value.NoNode? <==> forall n :: n in nodes ==> n.kind != HapsNode))
      && (r.Ok? && r.value.Selected? ==>
            (&& r.value.node in nodes && r.value.node.kind == HapsNode
             && (forall n :: n in nodes && n.kind == HapsNode ==>
                   DistSq(request.currentNode.position, r.value.node.position) <= DistSq(request.currentNode.position, n.position))
             && PathTo(net, request, r.value.node) == Ok(r.value.path)
             && r.value.cost == PathDelay(net.links, r.value.path, request.size, efficiency)))
  {
    var haps := OfKind(nodes, HapsNode);
    ClosestChoice(net, request, haps, efficiency);
    var r := Delayed(net, request, LazyScan(Probes(net, request, haps)), efficiency);
    if haps == [] {
      forall n | n in nodes ensures n.kind != HapsNode {
        var i :| 0 <= i < |nodes| && nodes[i] == n;
      }
    } else if r.Ok? {
      var k :| 0 <= k < |haps| && r.value.node == haps[k]
        && forall j :: 0 <= j < |haps| ==> DistSq(request.currentNode.position, haps[k].position) <= DistSq(request.currentNode.position, haps[j].position);
      forall m | m in nodes && m.kind == HapsNode
        ensures DistSq(request.currentNode.position, r.value.node.position) <= DistSq(request.currentNode.position, m.position)
      {
        var i :| 0 <= i < |nodes| && nodes[i] == m;
        var j :| 0 <= j < |haps| && haps[j] == m;
      }
      assert haps[0] in haps;
    }
  }

  // ----- random choice -----

  /** `RandomAssignment.select_compute_node`: no candidate gives (None, None, inf);
      otherwise some candidate (the draw of `random.choice`) with the path to it and that
      path's network delay, or the path's exception. */
  method SelectRandom(net: Network, request: Request<BaseNode>, nodes: seq<BaseNode>, efficiency: CommunicationLink -> PosReal)
    returns (r: Result<Selection>)
    ensures nodes == [] ==> r == Ok(NoNode)
    ensures r.Ok? && nodes != [] ==>
      (&& r.value.Selected? && r.value.node in nodes
       && PathTo(net, request, r.value.node) == Ok(r.value.path)
       && r.value.cost == PathDelay(net.links, r.value.path, request.size, efficiency))
    ensures r.Err? ==> exists n :: n in nodes && PathTo(net, request, n) == Err(r.error)
  {
    if nodes == [] {
      return Ok(NoNode);
    }
    assert nodes[0] in nodes;
    var selected :| selected in nodes;
    var path := net.GenerateRequestPath(request.currentNode, selected);
    if path.Err? {
      return Err(path.error);
    }
    var delay := net.GetNetworkDelay(request, path.value, efficiency);
    r := Ok(Selected(selected, path.value, delay));
  }

  // ----- preset assignment list -----

  /** What entry `e` of the assignment list designates among the compute nodes: nothing
      when `e >= len(compute_nodes)`, otherwise Python list indexing, where a negative
      entry counts from the end and one below `-len` raises IndexError. */
  function Designated(computeNodes: seq<BaseNode>, e: int): (r: Result<Option<BaseNode>>)
    ensures r == Ok(None) <==> e >= |computeNodes|
    ensures r.Err? <==> e < -|computeNodes|
    ensures r.Err? ==> r.error == IndexError
    ensures r.Ok? && r.value.Some? ==> r.value.value in computeNodes
    ensures 0 <= e < |computeNodes| ==> r == Ok(Some(computeNodes[e]))
  {
    if e >= |computeNodes| then Ok(None)
    else match PyIndex(e, |computeNodes|)
      case None => Err(IndexError)
      case Some(k) => Ok(Some(computeNodes[k]))
  }

  /** `MatrixBasedAssignment`: a preset list of compute-node indices, one per request, and a
      cursor into it. */
  class MatrixBased {
    const network: Network
    var assignmentMatrix: Option<seq<int>>
    var currentRequestIndex: nat

    constructor (network: Network)
      ensures this.network == network && assignmentMatrix == None && currentRequestIndex == 0
    {
      this.network := network;
      assignmentMatrix := None;
      currentRequestIndex := 0;
    }

    /** `set_assignment_matrix`: installs the list and rewinds the cursor. */
    method SetAssignmentMatrix(matrix: seq<int>)
      modifies this`assignmentMatrix, this`currentRequestIndex
      ensures assignmentMatrix == Some(matrix) && currentRequestIndex == 0
    {
      assignmentMatrix := Some(matrix);
      currentRequestIndex := 0;
    }

    /** `select_compute_node`; the candidate list is ignored. No list raises ValueError; a
        spent list gives (None, None, inf) and leaves the cursor; otherwise the cursor
        moves on by one and the entry it passed designates the node, whose path and delay
        are returned; an entry past the compute nodes gives (None, None, inf). */
    method SelectComputeNode(request: Request<BaseNode>, nodes: seq<BaseNode>, efficiency: CommunicationLink -> PosReal)
      returns (r: Result<Selection>)
      modifies this`currentRequestIndex
      ensures old(assignmentMatrix).None? ==> r.Err? && r.error.ValueError? && currentRequestIndex == old(currentRequestIndex)
      ensures old(assignmentMatrix).Some? && old(currentRequestIndex) >= |old(assignmentMatrix).value| ==>
        r == Ok(NoNode) && currentRequestIndex == old(currentRequestIndex)
      ensures old(assignmentMatrix).Some? && old(currentRequestIndex) < |old(assignmentMatrix).value| ==>
        && currentRequestIndex == old(currentRequestIndex) + 1
        && var d := Designated(network.computeNodes, assignmentMatrix.value[old(currentRequestIndex)]);
           match d
           case Err(e) => r == Err(e)
           case Ok(None) => r == Ok(NoNode)
           case Ok(Some(n)) =>
             match PathTo(network, request, n)
             case Err(e) => r == Err(e)
             case Ok(p) => r == Ok(Selected(n, p, PathDelay(network.links, p, request.size, efficiency)))
    {
      if assignmentMatrix.None? {
        return Err(ValueError("Assignment matrix not set"));
      }
      var matrix := assignmentMatrix.value;
      if currentRequestIndex >= |matrix| {
        return Ok(NoNode);
      }
      var entry := matrix[currentRequestIndex];
      currentRequestIndex := currentRequestIndex + 1;
      var computeNodes := network.computeNodes;
      ghost var d := Designated(computeNodes, entry);
      if entry >= |computeNodes| {
        assert d == Ok(None);
        return Ok(NoNode);
      }
      if entry < -|computeNodes| {
        assert d == Err(IndexError);
        return Err(IndexError);
      }
      var selected := if entry < 0 then computeNodes[entry + |computeNodes|] else computeNodes[entry];
      assert d == Ok(Some(selected));
      var path := network.GenerateRequestPath(request.currentNode, selected);
      assert path == PathTo(network, request, selected);
      if path.Err? {
        return Err(path.error);
      }
      var delay := network.GetNetworkDelay(request, path.value, efficiency);
      r := Ok(Selected(selected, path.value, delay));
    }
  }
}
