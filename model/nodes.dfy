/** Nodes of nodes/base_node.py and its concrete kinds (nodes/haps.py,
    nodes/base_station.py, nodes/user_device.py): on/off power with a one-off
    turn-on charge, a battery ceiling, a FIFO processing queue of which only the
    head advances, the per-tick energy ledger, and per-type active-link counters.
    The kinds differ only in constants, gathered here in a Profile. */
module Nodes {
  import opened Common
  import opened Requests
  import opened Antennas

  /** The Python class of a node; it also keys the active-link counters. */
  datatype NodeKind = UserDeviceNode | BaseStationNode | HapsNode | LeoNode

  /** The built-in power switch selected by `power_strategy`. */
  datatype PowerMode = AllOn | OnDemand | OnDemandWithTimeout

  datatype Position = Position(x: real, y: real)

  /** Squared Euclidean distance: it orders positions exactly as the distance does. */
  function DistSq(a: Position, b: Position): real {
    (a.x - b.x) * (a.x - b.x) + (a.y - b.y) * (a.y - b.y)
  }

  const CyclePerBit: real := 200.0
  /** The battery capacity that means "no battery limit". */
  const Unlimited: real := -1.0
  /** Seconds an idle node stays on under OnDemandWithTimeout. */
  const Timeout: real := 10.0

  /** The constants a node kind fixes in its constructor. */
  datatype Profile = Profile(
    antennas: seq<Antenna>,
    batteryCapacity: real,
    processingFrequency: real,
    kConst: real,
    transmissionPower: real,
    turnOnEnergyPeak: real,
    idleEnergy: real,
    initiallyOn: bool,
    pathLossExponent: real,
    attenuationCoefficient: real)

  /** BaseNode defaults overridden by each subclass constructor. A LEO node cannot be
      built (its constructor omits the position), so its row only keeps the kind total. */
  function ProfileOf(kind: NodeKind): Profile {
    match kind
    case HapsNode =>
      Profile([Antenna("UHF", 15.0), Antenna("VHF", 15.0)], 20000.0, 5e9, 10e-28, 33.0, 150.0, 50.0, false, 0.0, 0.0)
    case BaseStationNode =>
      Profile([Antenna("VHF", 10.0)], Unlimited, 3e9, 10e-28, 0.0, 150.0, 50.0, true, 0.0, 0.0)
    case UserDeviceNode =>
      Profile([Antenna("VHF", 3.0)], Unlimited, 0.0, 0.0, 23.0, 0.0, 0.0, false, 3.0, 3.0)
    case LeoNode =>
      Profile([], 100.0, 0.0, 0.0, 0.0, 150.0, 50.0, false, 0.0, 0.0)
  }

  /** A battery-limited node whose consumption has reached its capacity. */
  predicate Depleted(p: Profile, energy: real) {
    p.batteryCapacity != Unlimited && p.batteryCapacity - energy <= 0.0
  }

  /** (state, energy) after `_turn_on`. */
  function TurnOnStep(p: Profile, on: bool, energy: real): (bool, real) {
    if Depleted(p, energy) || on then (on, energy) else (true, energy + p.turnOnEnergyPeak)
  }

  /** `_turn_on` switches the node on unless it is depleted, charges the turn-on peak
      exactly when it switches an off node on, and a second call changes nothing. */
  lemma TurnOnChargesOnce(p: Profile, on: bool, energy: real)
    ensures TurnOnStep(p, on, energy).0 == (on || !Depleted(p, energy))
    ensures TurnOnStep(p, on, energy).1 ==
      energy + (if !on && TurnOnStep(p, on, energy).0 then p.turnOnEnergyPeak else 0.0)
    ensures TurnOnStep(p, TurnOnStep(p, on, energy).0, TurnOnStep(p, on, energy).1) == TurnOnStep(p, on, energy)
  {
  }

  /** (state, energy, last_state_change) after `apply_power_strategy`. */
  function PowerOutcome(p: Profile, mode: PowerMode, busy: bool, on: bool, energy: real, lastChange: real): (real, bool, real) {
    match mode
    case AllOn =>
      var (s, e) := TurnOnStep(p, on, energy); (lastChange, s, e)
    case OnDemand =>
      if busy then var (s, e) := TurnOnStep(p, on, energy); (lastChange, s, e)
      else (lastChange, false, energy)
    case OnDemandWithTimeout =>
      if busy then var (s, e) := TurnOnStep(p, on, energy); (0.0, s, e)
      else if lastChange > Timeout then (lastChange, false, energy)
      else (lastChange, on, energy)
  }

  /** What each power mode does: AllOn always tries to turn on; OnDemand is on iff the
      queue is non-empty (battery permitting); OnDemandWithTimeout turns on and restarts
      its clock when busy, and turns off only once the idle clock is past the timeout.
      Under every mode the only energy charged is the turn-on peak of an off-to-on switch. */
  lemma PowerModes(p: Profile, mode: PowerMode, busy: bool, on: bool, energy: real, lastChange: real)
    ensures var (c, s, e) := PowerOutcome(p, mode, busy, on, energy, lastChange);
      && e == energy + (if !on && s then p.turnOnEnergyPeak else 0.0)
      && (mode == AllOn ==> s == (on || !Depleted(p, energy)) && c == lastChange)
      && (mode == OnDemand ==> s == (busy && (on || !Depleted(p, energy))) && c == lastChange)
      && (mode == OnDemandWithTimeout && busy ==> s == (on || !Depleted(p, energy)) && c == 0.0)
      && (mode == OnDemandWithTimeout && !busy ==> c == lastChange && s == (on && lastChange <= Timeout))
  {
    TurnOnChargesOnce(p, on, energy);
  }

  /** The power switch never lowers the consumption when the turn-on peak is non-negative. */
  lemma PowerNeverRefunds(p: Profile, mode: PowerMode, busy: bool, on: bool, energy: real, lastChange: real)
    requires p.turnOnEnergyPeak >= 0.0
    ensures PowerOutcome(p, mode, busy, on, energy, lastChange).2 >= energy
  {
    PowerModes(p, mode, busy, on, energy, lastChange);
  }

  /** `processing_time`: cycles needed over the frequency; a zero frequency divides by zero. */
  function ProcessingTime(p: Profile, size: real): (r: Result<real>)
    ensures r.Err? <==> p.processingFrequency == 0.0
    ensures r.Ok? && size >= 0.0 && p.processingFrequency > 0.0 ==> r.value >= 0.0
    ensures r.Ok? ==> r.value * p.processingFrequency == CyclePerBit * size
  {
    if p.processingFrequency == 0.0 then Err(ZeroDivisionError)
    else Ok(CyclePerBit * size / p.processingFrequency)
  }

  /** `processing_energy`: k·f³, the power drawn while processing. */
  function ProcessingEnergy(p: Profile): real {
    p.kConst * p.processingFrequency * p.processingFrequency * p.processingFrequency
  }

  /** `can_process` on a node in state (on, energy, load); `request` is the candidate's
      (size, qos_limit) or None. */
  predicate CanProcessSpec(p: Profile, on: bool, energy: real, load: real, request: Option<(real, real)>, checkState: bool) {
    if p.processingFrequency <= 0.0 then false
    else if checkState && !on then false
    else if Depleted(p, energy) then false
    else match request
      case None => true
      case Some((size, qos)) => CyclePerBit * (load + size) / p.processingFrequency <= qos
  }

  /** A HAPS draws 125 W while processing and a base station 27 W; a user device none. */
  lemma ProcessingPowerByKind()
    ensures ProcessingEnergy(ProfileOf(HapsNode)) == 125.0
    ensures ProcessingEnergy(ProfileOf(BaseStationNode)) == 27.0
    ensures ProcessingEnergy(ProfileOf(UserDeviceNode)) == 0.0
  {
    var h := ProfileOf(HapsNode);
    assert h.processingFrequency * h.processingFrequency * h.processingFrequency == 125e27;
    var b := ProfileOf(BaseStationNode);
    assert b.processingFrequency * b.processingFrequency * b.processingFrequency == 27e27;
  }

  /** Every cost a node kind can charge (turn-on peak, processing power, idle power) is
      non-negative, so a node's consumption never decreases. */
  lemma CostsNonNegative(kind: NodeKind)
    ensures ProfileOf(kind).turnOnEnergyPeak >= 0.0 && ProfileOf(kind).idleEnergy >= 0.0
    ensures ProcessingEnergy(ProfileOf(kind)) >= 0.0
  {
    ProcessingPowerByKind();
  }

  /** A HAPS answers any VHF peer with its second antenna (UHF comes first), and a UHF
      peer with its first; a base station, whose only antenna is VHF, answers VHF peers only. */
  lemma AntennaMatching(peer: Antenna)
    ensures peer.antennaType == "VHF" ==> FirstCompatible(ProfileOf(HapsNode).antennas, peer) == 1
    ensures peer.antennaType == "UHF" ==> FirstCompatible(ProfileOf(HapsNode).antennas, peer) == 0
    ensures FirstCompatible(ProfileOf(BaseStationNode).antennas, peer) < 1 <==> peer.antennaType == "VHF"
    ensures FirstCompatible(ProfileOf(UserDeviceNode).antennas, peer) < 1 <==> peer.antennaType == "VHF"
  {
    var h := ProfileOf(HapsNode).antennas;
    if peer.antennaType == "VHF" {
      assert h[0].antennaType != peer.antennaType by {
        assert h[0].antennaType[0] == 'U';
      }
      assert h[1..][0].antennaType == peer.antennaType;
    }
  }

  /** A user device never passes `can_process`; a base station's battery never blocks it
      or `_turn_on`; a HAPS that has consumed its 2e4 J can neither turn on nor process,
      and an off HAPS fails the state check. */
  lemma CapabilityByKind(on: bool, energy: real, load: real, request: Option<(real, real)>, checkState: bool)
    ensures !CanProcessSpec(ProfileOf(UserDeviceNode), on, energy, load, request, checkState)
    ensures !Depleted(ProfileOf(BaseStationNode), energy)
    ensures TurnOnStep(ProfileOf(BaseStationNode), on, energy) == (true, if on then energy else energy + 150.0)
    ensures energy >= 20000.0 ==>
      TurnOnStep(ProfileOf(HapsNode), on, energy) == (on, energy)
      && !CanProcessSpec(ProfileOf(HapsNode), on, energy, load, request, checkState)
    ensures checkState && !on ==> !CanProcessSpec(ProfileOf(HapsNode), on, energy, load, request, checkState)
    ensures TurnOnStep(ProfileOf(UserDeviceNode), on, energy).1 == energy
  {
  }

  /** Processing and idle power drawn for a non-negative time charge nothing negative. */
  lemma ChargesNonNegative(kind: NodeKind, p: Profile, time: real)
    requires p == ProfileOf(kind)
    ensures time >= 0.0 ==> ProcessingEnergy(p) * time >= 0.0 && p.idleEnergy * time >= 0.0
  {
    ProcessingPowerByKind();
  }

  /** Sum of a sequence of reals, folded from the right end. */
  function Sum(s: seq<real>): real {
    if s == [] then 0.0 else Sum(s[..|s| - 1]) + s[|s| - 1]
  }

  /** Sum of the sizes of the requests in a queue. */
  function SumSizes(q: seq<Request<BaseNode>>): real
    reads q
  {
    if q == [] then 0.0 else SumSizes(q[..|q| - 1]) + q[|q| - 1].size
  }

  /** Removing the head takes its size off the total. */
  lemma {:induction false} SumSizesTail(q: seq<Request<BaseNode>>)
    requires |q| > 0
    ensures SumSizes(q) == q[0].size + SumSizes(q[1..])
  {
    if |q| > 1 {
      assert q[1..][..|q[1..]| - 1] == q[..|q| - 1][1..];
      SumSizesTail(q[..|q| - 1]);
    }
  }

  class BaseNode {
    const nodeId: int
    const kind: NodeKind
    const position: Position
    /** The constants the kind's constructor fixes. */
    const profile: Profile := ProfileOf(kind)
    var state: bool
    /** Active-link counters keyed by (own kind, peer kind). */
    var activeLinks: map<(NodeKind, NodeKind), int>
    var currentLoad: real
    var processingQueue: seq<Request<BaseNode>>
    var energyConsumed: real
    var destinations: seq<BaseNode>
    var lastTickEnergy: real
    var energyHistory: seq<real>
    var lastStateChange: real
    var powerStrategy: PowerMode
    /** Requests created by a user device (`UserDevice.current_requests`). */
    var currentRequests: seq<Request<BaseNode>>

    /** The ledger invariant: the per-tick energy entries add up to the energy
        recorded at the last tick, and no active-link counter is negative. */
    ghost predicate Valid()
      reads this`energyHistory, this`lastTickEnergy, this`activeLinks
    {
      && Sum(energyHistory) == lastTickEnergy
      && forall k :: k in activeLinks ==> activeLinks[k] >= 0
    }

    /** `current_load` is the total size of the queued requests. */
    ghost predicate LoadMatchesQueue()
      reads this, processingQueue
    {
      currentLoad == SumSizes(processingQueue)
    }

    /** A HAPS: UHF then VHF antenna (gain 15), a 2e4 J battery, 5 GHz, initially off. */
    constructor Haps(id: int, pos: Position)
      ensures kind == HapsNode && nodeId == id && position == pos
      ensures !state && energyConsumed == 0.0 && currentLoad == 0.0
      ensures processingQueue == [] && destinations == [] && energyHistory == [] && activeLinks == map[]
      ensures lastTickEnergy == 0.0 && lastStateChange == 0.0 && powerStrategy == AllOn && currentRequests == []
      ensures Valid() && LoadMatchesQueue()
    {
      nodeId := id;
      kind := HapsNode;
      position := pos;
      state := false;
      activeLinks := map[];
      currentLoad := 0.0;
      processingQueue := [];
      energyConsumed := 0.0;
      destinations := [];
      lastTickEnergy := 0.0;
      energyHistory := [];
      lastStateChange := 0.0;
      powerStrategy := AllOn;
      currentRequests := [];
    }

    /** A base station: already on with nothing charged, 3 GHz, one VHF antenna (gain 10), no battery limit. */
    constructor BaseStation(id: int, pos: Position)
      ensures kind == BaseStationNode && nodeId == id && position == pos
      ensures state && energyConsumed == 0.0 && currentLoad == 0.0
      ensures processingQueue == [] && destinations == [] && energyHistory == [] && activeLinks == map[]
      ensures lastTickEnergy == 0.0 && lastStateChange == 0.0 && powerStrategy == AllOn && currentRequests == []
      ensures Valid() && LoadMatchesQueue()
    {
      nodeId := id;
      kind := BaseStationNode;
      position := pos;
      state := true;
      activeLinks := map[];
      currentLoad := 0.0;
      processingQueue := [];
      energyConsumed := 0.0;
      destinations := [];
      lastTickEnergy := 0.0;
      energyHistory := [];
      lastStateChange := 0.0;
      powerStrategy := AllOn;
      currentRequests := [];
    }

    /** A user device: one VHF antenna (gain 3), no processing, no idle or turn-on energy. */
    constructor UserDevice(id: int, pos: Position)
      ensures kind == UserDeviceNode && nodeId == id && position == pos
      ensures !state && energyConsumed == 0.0 && currentLoad == 0.0
      ensures processingQueue == [] && destinations == [] && energyHistory == [] && activeLinks == map[]
      ensures lastTickEnergy == 0.0 && lastStateChange == 0.0 && powerStrategy == AllOn && currentRequests == []
      ensures Valid() && LoadMatchesQueue()
    {
      nodeId := id;
      kind := UserDeviceNode;
      position := pos;
      state := false;
      activeLinks := map[];
      currentLoad := 0.0;
      processingQueue := [];
      energyConsumed := 0.0;
      destinations := [];
      lastTickEnergy := 0.0;
      energyHistory := [];
      lastStateChange := 0.0;
      powerStrategy := AllOn;
      currentRequests := [];
    }

    predicate IsDepleted()
      reads this
    {
      Depleted(profile, energyConsumed)
    }

    /** `can_process(request, check_state)`. */
    predicate CanProcess(request: Option<Request<BaseNode>>, checkState: bool)
      reads this, if request.Some? then {request.value} else {}
    {
      CanProcessSpec(profile, state, energyConsumed, currentLoad,
        if request.Some? then Some((request.value.size, request.value.qosLimit)) else None, checkState)
    }

    /** `estimated_processing_time`: the processing time of the current load plus the request. */
    function EstimatedProcessingTime(request: Request<BaseNode>): (r: Result<real>)
      reads this, request
      ensures r.Ok? && CanProcess(None, false) ==>
        (CanProcess(Some(request), false) <==> r.value <= request.qosLimit)
    {
      ProcessingTime(profile, currentLoad + request.size)
    }

    /** `get_active_count`: the counter for (own kind, peer kind), 0 when unseen. */
    function GetActiveCount(other: NodeKind): int
      reads this
    {
      if (kind, other) in activeLinks then activeLinks[(kind, other)] else 0
    }

    method TurnOn()
      modifies this`state, this`energyConsumed
      ensures (state, energyConsumed) == TurnOnStep(profile, old(state), old(energyConsumed))
    {
      if profile.batteryCapacity != Unlimited && profile.batteryCapacity - energyConsumed <= 0.0 {
        return;
      }
      if state {
        return;
      }
      energyConsumed := energyConsumed + profile.turnOnEnergyPeak;
      state := true;
    }

    method TurnOff()
      modifies this`state
      ensures !state
    {
      state := false;
    }

    /** `set_state`: turning on goes through `_turn_on` (battery check and peak charge). */
    method SetState(on: bool)
      modifies this`state, this`energyConsumed
      ensures (state, energyConsumed) ==
        if on then TurnOnStep(profile, old(state), old(energyConsumed)) else (false, old(energyConsumed))
    {
      if on == state {
        return;
      }
      if on {
        TurnOn();
      } else {
        TurnOff();
      }
    }

    /** `apply_power_strategy` for the node's own power mode. */
    method ApplyPowerStrategy()
      modifies this`state, this`energyConsumed, this`lastStateChange
      ensures (lastStateChange, state, energyConsumed) ==
        PowerOutcome(profile, powerStrategy, |processingQueue| > 0, old(state), old(energyConsumed), old(lastStateChange))
    {
      match powerStrategy {
        case AllOn =>
          TurnOn();
        case OnDemand =>
          if |processingQueue| > 0 {
            TurnOn();
          } else {
            TurnOff();
          }
        case OnDemandWithTimeout =>
          if |processingQueue| > 0 {
            lastStateChange := 0.0;
            TurnOn();
          } else if lastStateChange > Timeout {
            TurnOff();
          }
      }
    }

    method AddDestination(destination: BaseNode)
      modifies this`destinations
      ensures destinations == old(destinations) + [destination]
    {
      destinations := destinations + [destination];
    }

    /** `get_compatible_antenna`: the first own antenna of the peer's type, if any. */
    method GetCompatibleAntenna(other: Antenna) returns (r: Option<Antenna>)
      ensures r.Some? <==> exists k :: 0 <= k < |profile.antennas| && IsCompatibleWith(profile.antennas[k], other)
      ensures r.Some? ==> r.value == profile.antennas[FirstCompatible(profile.antennas, other)]
    {
      var i := 0;
      while i < |profile.antennas|
        invariant 0 <= i <= |profile.antennas|
        invariant forall k :: 0 <= k < i ==> !IsCompatibleWith(profile.antennas[k], other)
      {
        if IsCompatibleWith(profile.antennas[i], other) {
          assert FirstCompatible(profile.antennas, other) == i;
          return Some(profile.antennas[i]);
        }
        i := i + 1;
      }
      return None;
    }

    /** `add_active_link`: one more link towards `other`; no other counter moves. */
    method AddActiveLink(other: NodeKind)
      modifies this`activeLinks
      ensures GetActiveCount(other) == old(GetActiveCount(other)) + 1
      ensures forall o :: o != other ==> GetActiveCount(o) == old(GetActiveCount(o))
      ensures old(Valid()) ==> Valid()
    {
      var key := (kind, other);
      if key !in activeLinks {
        activeLinks := activeLinks[key := 0];
      }
      activeLinks := activeLinks[key := activeLinks[key] + 1];
    }

    /** `remove_active_link`: one link fewer towards `other`, never below zero. */
    method RemoveActiveLink(other: NodeKind)
      modifies this`activeLinks
      ensures GetActiveCount(other) == if old(GetActiveCount(other)) > 0 then old(GetActiveCount(other)) - 1 else old(GetActiveCount(other))
      ensures forall o :: o != other ==> GetActiveCount(o) == old(GetActiveCount(o))
      ensures old(Valid()) ==> Valid()
    {
      var key := (kind, other);
      if key in activeLinks && activeLinks[key] > 0 {
        activeLinks := activeLinks[key := activeLinks[key] - 1];
      }
    }

    /** `add_request_to_process`: an admissible request (state not checked) joins the tail
        of the queue and the load, turns PROCESSING and lands on this node with progress 0;
        otherwise nothing changes. */
    method AddRequestToProcess(request: Request<BaseNode>, now: int)
      modifies this`processingQueue, this`currentLoad, request
      ensures old(CanProcess(Some(request), false)) ==>
        && processingQueue == old(processingQueue) + [request]
        && currentLoad == old(currentLoad) + old(request.size)
        && request.currentNode == this && request.processingProgress == 0.0
        && (if IsTerminal(old(request.status)) then request.status == old(request.status)
            else request.status == Processing && request.statusHistory == old(request.statusHistory) + [(Processing, now)])
      ensures !old(CanProcess(Some(request), false)) ==>
        processingQueue == old(processingQueue) && currentLoad == old(currentLoad) && unchanged(request)
      ensures request.size == old(request.size) && request.qosLimit == old(request.qosLimit)
      ensures request.path == old(request.path) && request.pathIndex == old(request.pathIndex)
      ensures request.targetNode == old(request.targetNode) && request.nextNode == old(request.nextNode)
      ensures old(LoadMatchesQueue()) && request !in old(processingQueue) ==> LoadMatchesQueue()
    {
      if CanProcess(Some(request), false) {
        processingQueue := processingQueue + [request];
        currentLoad := currentLoad + request.size;
        request.UpdateStatus(Processing, now);
        request.currentNode := this;
        request.processingProgress := 0.0;
        assert processingQueue[..|processingQueue| - 1] == old(processingQueue);
      }
    }

    /** The head of the queue, as a frame. */
    function Head(): set<Request<BaseNode>>
      reads this
    {
      if |processingQueue| > 0 then {processingQueue[0]} else {}
    }

    /** `process_requests`: only the head advances, by f·time/200 bits, and the node pays
        k·f³·time; a head whose progress reaches its size leaves the queue and the load,
        FAILED if the battery ceiling has been reached, else COMPLETED. */
    method ProcessRequests(time: real, now: int)
      modifies this`energyConsumed, this`currentLoad, this`processingQueue, Head()
      ensures |old(processingQueue)| == 0 ==>
        energyConsumed == old(energyConsumed) && currentLoad == old(currentLoad) && processingQueue == old(processingQueue)
      ensures |old(processingQueue)| > 0 ==>
        var h := old(processingQueue[0]);
        && h.processingProgress == old(h.processingProgress) + profile.processingFrequency * time / CyclePerBit
        && energyConsumed == old(energyConsumed) + ProcessingEnergy(profile) * time
        && h.size == old(h.size) && h.qosLimit == old(h.qosLimit) && h.path == old(h.path)
        && h.pathIndex == old(h.pathIndex) && h.targetNode == old(h.targetNode) && h.nextNode == old(h.nextNode)
        && h.currentNode == old(h.currentNode)
        && if h.processingProgress >= h.size then
             && processingQueue == old(processingQueue[1..])
             && currentLoad == old(currentLoad) - h.size
             && (IsTerminal(old(h.status)) ==> h.status == old(h.status))
             && (!IsTerminal(old(h.status)) ==>
                   h.status == (if energyConsumed >= profile.batteryCapacity && profile.batteryCapacity != Unlimited then Failed else Completed))
           else
             && processingQueue == old(processingQueue) && currentLoad == old(currentLoad)
             && h.status == old(h.status)
      ensures old(LoadMatchesQueue()) && (|old(processingQueue)| > 0 ==> old(processingQueue[0]) !in old(processingQueue[1..])) ==>
        LoadMatchesQueue()
      ensures time >= 0.0 ==> energyConsumed >= old(energyConsumed)
    {
      if |processingQueue| == 0 {
        return;
      }
      var request := processingQueue[0];
      SumSizesTail(processingQueue);
      ghost var rest := processingQueue[1..];
      ghost var restLoad := SumSizes(rest);
      request.processingProgress := request.processingProgress + profile.processingFrequency * time / CyclePerBit;
      ChargeProcessing(time);
      if request.processingProgress >= request.size {
        if energyConsumed >= profile.batteryCapacity && profile.batteryCapacity != Unlimited {
          request.UpdateStatus(Failed, now);
        } else {
          request.UpdateStatus(Completed, now);
        }
        currentLoad := currentLoad - request.size;
        processingQueue := processingQueue[1..];
      } else {
        SumSizesTail(processingQueue);
      }
      assert request !in rest ==> SumSizes(rest) == restLoad;
    }

    /** `tick`: power switch, forced off when depleted, processing of the head, idle energy
        while on, then one ledger entry for the energy spent in this tick. */
    method Tick(time: real, now: int)
      modifies this`state, this`energyConsumed, this`currentLoad, this`processingQueue
      modifies this`lastTickEnergy, this`energyHistory, this`lastStateChange, Head()
      ensures var (c, s, e) := PowerOutcome(profile, powerStrategy, |old(processingQueue)| > 0,
                                            old(state), old(energyConsumed), old(lastStateChange));
        && state == (s && !Depleted(profile, e))
        && energyConsumed == e + (if |old(processingQueue)| > 0 then ProcessingEnergy(profile) * time else 0.0)
                               + (if state then profile.idleEnergy * time else 0.0)
        && lastStateChange == c + time
      ensures old(IsDepleted()) ==> !state
      ensures time >= 0.0 ==> energyConsumed >= old(energyConsumed)
      ensures processingQueue == old(processingQueue) || (|old(processingQueue)| > 0 && processingQueue == old(processingQueue[1..]))
      ensures energyHistory == old(energyHistory) + [energyConsumed - old(lastTickEnergy)]
      ensures lastTickEnergy == energyConsumed
      ensures old(Valid()) ==> Valid()
      ensures activeLinks == old(activeLinks)
      ensures forall r :: r in old(Head()) ==>
        r.path == old(r.path) && r.pathIndex == old(r.pathIndex) && r.targetNode == old(r.targetNode) && r.size == old(r.size)
    {
      ghost var queue := processingQueue;
      PowerStep();
      ghost var afterPower := energyConsumed;
      ghost var on := state;
      ProcessRequests(time, now);
      assert state == on;
      assert energyConsumed == afterPower + (if |queue| > 0 then ProcessingEnergy(profile) * time else 0.0);
      CloseTick(time);
    }

    /** The first part of `tick`: the power strategy, then a forced switch-off once the
        battery ceiling has been reached. */
    method PowerStep()
      modifies this`state, this`energyConsumed, this`lastStateChange
      ensures var (c, s, e) := PowerOutcome(profile, powerStrategy, |processingQueue| > 0,
                                            old(state), old(energyConsumed), old(lastStateChange));
        state == (s && !Depleted(profile, e)) && energyConsumed == e && lastStateChange == c
      ensures energyConsumed >= old(energyConsumed)
    {
      CostsNonNegative(kind);
      PowerNeverRefunds(profile, powerStrategy, |processingQueue| > 0, state, energyConsumed, lastStateChange);
      ApplyPowerStrategy();
      if profile.batteryCapacity != Unlimited && profile.batteryCapacity - energyConsumed <= 0.0 {
        TurnOff();
      }
    }

    /** The processing power k·f³ drawn for `time` seconds. */
    method ChargeProcessing(time: real)
      modifies this`energyConsumed
      ensures energyConsumed == old(energyConsumed) + ProcessingEnergy(profile) * time
      ensures time >= 0.0 ==> energyConsumed >= old(energyConsumed)
    {
      ChargesNonNegative(kind, profile, time);
      energyConsumed := energyConsumed + ProcessingEnergy(profile) * time;
    }

    /** The last part of `tick`: idle power while on, the ledger entry for the tick, and
        the state clock. */
    method CloseTick(time: real)
      modifies this`energyConsumed, this`lastTickEnergy, this`energyHistory, this`lastStateChange
      ensures energyConsumed == old(energyConsumed) + (if state then profile.idleEnergy * time else 0.0)
      ensures lastTickEnergy == energyConsumed
      ensures energyHistory == old(energyHistory) + [energyConsumed - old(lastTickEnergy)]
      ensures lastStateChange == old(lastStateChange) + time
      ensures old(Valid()) ==> Valid()
      ensures time >= 0.0 ==> energyConsumed >= old(energyConsumed)
    {
      ChargesNonNegative(kind, profile, time);
      if state {
        energyConsumed := energyConsumed + profile.idleEnergy * time;
      }
      var energyThisTick := energyConsumed - lastTickEnergy;
      lastTickEnergy := energyConsumed;
      energyHistory := energyHistory + [energyThisTick];
      assert energyHistory[..|energyHistory| - 1] == old(energyHistory);
      lastStateChange := lastStateChange + time;
    }

    /** `UserDevice.add_request`: records the request and hands it back. */
    method AddRequest(request: Request<BaseNode>) returns (r: Request<BaseNode>)
      requires kind == UserDeviceNode
      modifies this`currentRequests
      ensures currentRequests == old(currentRequests) + [request] && r == request
    {
      currentRequests := currentRequests + [request];
      return request;
    }

    /** `UserDevice.assign_target_node`: sets the request's target and nothing else. */
    method AssignTargetNode(request: Request<BaseNode>, target: BaseNode)
      requires kind == UserDeviceNode
      modifies request`targetNode
      ensures request.targetNode == Some(target)
    {
      request.targetNode := Some(target);
    }
  }
}
