/** Communication links of networks/communication_link.py: a FIFO transmission queue
    with a progress counter; at most one request finishes per tick, and a HAPS pays
    for what it transmits. The radio physics (path loss, gain, SNR, Shannon capacity)
    is reduced to an opaque positive spectral efficiency per link. */
module Links {
  import opened Common
  import opened Requests
  import opened Antennas
  import opened Nodes

  /** `LinkConfig`; the bandwidth is positive in every configuration the network builds. */
  datatype LinkConfig = LinkConfig(totalBandwidth: PosReal, signalPower: real, carrierFrequency: real)

  /** The pair `find_compatible_antennas` picks: the first antenna of `own` that some
      antenna of `bs` matches, with the first such antenna of `bs`. */
  function CompatiblePair(own: seq<Antenna>, bs: seq<Antenna>): (r: Option<(Antenna, Antenna)>)
    ensures r.Some? ==> r.value.0 in own && r.value.1 in bs && IsCompatibleWith(r.value.1, r.value.0)
    ensures r.None? <==> forall i, j :: 0 <= i < |own| && 0 <= j < |bs| ==> !IsCompatibleWith(bs[j], own[i])
  {
    if own == [] then None
    else if FirstCompatible(bs, own[0]) < |bs| then Some((own[0], bs[FirstCompatible(bs, own[0])]))
    else
      var r := CompatiblePair(own[1..], bs);
      assert forall i :: 1 <= i < |own| ==> own[i] == own[1..][i - 1];
      r
  }

  /** `find_compatible_antennas`, raising ValueError when no pair matches. */
  method FindCompatibleAntennas(a: BaseNode, b: BaseNode) returns (r: Result<(Antenna, Antenna)>)
    ensures r.Ok? <==> CompatiblePair(a.profile.antennas, b.profile.antennas).Some?
    ensures r.Ok? ==> r.value == CompatiblePair(a.profile.antennas, b.profile.antennas).value
    ensures r.Err? ==> r.error.ValueError?
  {
    var own := a.profile.antennas;
    var i := 0;
    while i < |own|
      invariant 0 <= i <= |own|
      invariant CompatiblePair(own, b.profile.antennas) == CompatiblePair(own[i..], b.profile.antennas)
    {
      var antennaB := b.GetCompatibleAntenna(own[i]);
      assert own[i..][1..] == own[i + 1..];
      if antennaB.Some? {
        return Ok((own[i], antennaB.value));
      }
      i := i + 1;
    }
    return Err(ValueError("No compatible antennas found"));
  }

  class CommunicationLink {
    const nodeA: BaseNode
    const nodeB: BaseNode
    const config: LinkConfig
    const antennas: (Antenna, Antenna)
    var transmissionQueue: seq<Request<BaseNode>>
    var requestProgress: real
    var completedRequests: seq<Request<BaseNode>>

    constructor (a: BaseNode, b: BaseNode, config: LinkConfig, antennas: (Antenna, Antenna))
      ensures nodeA == a && nodeB == b && this.config == config && this.antennas == antennas
      ensures transmissionQueue == [] && requestProgress == 0.0 && completedRequests == []
    {
      nodeA := a;
      nodeB := b;
      this.config := config;
      this.antennas := antennas;
      transmissionQueue := [];
      requestProgress := 0.0;
      completedRequests := [];
    }

    /** `CommunicationLink(node_a, node_b, config)`: ValueError, with nothing changed, when
        no antenna pair matches; otherwise a fresh empty link, and `node_b` becomes a
        destination of `node_a`. */
    static method Create(a: BaseNode, b: BaseNode, config: LinkConfig) returns (r: Result<CommunicationLink>)
      modifies a`destinations
      ensures r.Ok? <==> CompatiblePair(a.profile.antennas, b.profile.antennas).Some?
      ensures r.Ok? ==>
        && fresh(r.value)
        && r.value.nodeA == a && r.value.nodeB == b && r.value.config == config
        && r.value.antennas == CompatiblePair(a.profile.antennas, b.profile.antennas).value
        && r.value.transmissionQueue == [] && r.value.requestProgress == 0.0 && r.value.completedRequests == []
        && a.destinations == old(a.destinations) + [b]
      ensures r.Err? ==> r.error.ValueError? && a.destinations == old(a.destinations)
    {
      var pair := FindCompatibleAntennas(a, b);
      if pair.Err? {
        return Err(pair.error);
      }
      var link := new CommunicationLink(a, b, config, pair.value);
      a.AddDestination(b);
      return Ok(link);
    }

    /** `adjusted_bandwidth`: the total bandwidth shared among node_b's active links
        from node_a's kind; never more than the total, never zero. */
    function AdjustedBandwidth(): (r: real)
      reads nodeB
      ensures 0.0 < r <= config.totalBandwidth
      ensures r * Max(1.0, nodeB.GetActiveCount(nodeA.kind) as real) == config.totalBandwidth
    {
      DivideByLarger(config.totalBandwidth, 1.0, Max(1.0, nodeB.GetActiveCount(nodeA.kind) as real));
      config.totalBandwidth / Max(1.0, nodeB.GetActiveCount(nodeA.kind) as real)
    }

    /** `calculate_capacity`: the adjusted bandwidth times the link's spectral efficiency
        (log2(1 + SNR), not modelled). */
    function Capacity(efficiency: PosReal): (r: real)
      reads nodeB
      ensures 0.0 < r <= config.totalBandwidth * efficiency
    {
      AdjustedBandwidth() * efficiency
    }

    /** `calculate_transmission_delay`: seconds to send `size` bits at the link capacity. */
    function TransmissionDelay(size: real, efficiency: PosReal): (r: real)
      reads nodeB
      ensures r * Capacity(efficiency) == size
      ensures size >= 0.0 ==> r >= 0.0
    {
      size / Capacity(efficiency)
    }

    /** `add_to_queue`: the request joins the tail and the progress counter restarts,
        even if another request was half sent. */
    method AddToQueue(request: Request<BaseNode>)
      modifies this`transmissionQueue, this`requestProgress
      ensures transmissionQueue == old(transmissionQueue) + [request]
      ensures requestProgress == 0.0
    {
      transmissionQueue := transmissionQueue + [request];
      requestProgress := 0.0;
    }

    /** `tick`: the completed list is emptied; a non-empty queue sends capacity·time bits
        of its head (a HAPS sender pays its transmission power for the whole tick), and a
        head whose progress reaches its size moves to the completed list. */
    method Tick(time: real, efficiency: PosReal, dbmToWatt: real -> real)
      modifies this`transmissionQueue, this`requestProgress, this`completedRequests, nodeA`energyConsumed
      ensures |old(transmissionQueue)| == 0 ==>
        && completedRequests == [] && transmissionQueue == old(transmissionQueue)
        && requestProgress == old(requestProgress) && nodeA.energyConsumed == old(nodeA.energyConsumed)
      ensures |old(transmissionQueue)| > 0 ==>
        var head := old(transmissionQueue[0]);
        var progress := old(requestProgress) + old(Capacity(efficiency)) * time;
        && nodeA.energyConsumed == old(nodeA.energyConsumed)
             + (if nodeA.kind == HapsNode then dbmToWatt(nodeA.profile.transmissionPower) * time else 0.0)
        && if progress >= head.size then
             completedRequests == [head] && transmissionQueue == old(transmissionQueue[1..]) && requestProgress == 0.0
           else
             completedRequests == [] && transmissionQueue == old(transmissionQueue) && requestProgress == progress
      ensures |completedRequests| <= 1
      ensures completedRequests == [] || (|old(transmissionQueue)| > 0 && completedRequests == [old(transmissionQueue[0])])
      ensures time >= 0.0 && dbmToWatt(nodeA.profile.transmissionPower) >= 0.0 ==> nodeA.energyConsumed >= old(nodeA.energyConsumed)
    {
      ProductNonNegative(dbmToWatt(nodeA.profile.transmissionPower), time);
      completedRequests := [];
      if |transmissionQueue| > 0 {
        var current := transmissionQueue[0];
        var bits := Capacity(efficiency) * time;
        if nodeA.kind == HapsNode {
          nodeA.energyConsumed := nodeA.energyConsumed + dbmToWatt(nodeA.profile.transmissionPower) * time;
        }
        requestProgress := requestProgress + bits;
        if requestProgress >= current.size {
          completedRequests := completedRequests + [current];
          transmissionQueue := transmissionQueue[1..];
          requestProgress := 0.0;
        }
      }
    }
  }

  lemma ProductNonNegative(a: real, b: real)
    ensures a >= 0.0 && b >= 0.0 ==> a * b >= 0.0
  {
  }

  /** Dividing a positive amount by a larger divisor never gives more. */
  lemma DivideByLarger(t: PosReal, x: real, y: real)
    requires 0.0 < x <= y
    ensures 0.0 < t / y <= t / x
  {
    assert t / y * y == t && t / x * x == t;
    assert t / y * x <= t / y * y;
    assert (t / y - t / x) * x <= 0.0;
  }

  /** More active links at the receiver never give a link more bandwidth. */
  lemma BandwidthShrinksWithLoad(total: PosReal, m: int, n: int)
    requires m <= n
    ensures total / Max(1.0, n as real) <= total / Max(1.0, m as real) <= total
  {
    DivideByLarger(total, Max(1.0, m as real), Max(1.0, n as real));
    DivideByLarger(total, 1.0, Max(1.0, m as real));
  }
}
