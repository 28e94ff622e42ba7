/** The Q-learning assignment of algorithms/assignment/qlearning.py: the system state is
    encoded as a string (a request-size prefix and one five-field segment per candidate),
    the Q-table maps such strings to one value per candidate, actions are chosen
    epsilon-greedily, and the value of the previous action is updated by the temporal
    difference rule once its request's outcome is known. */
module QLearning {
  import opened Common
  import opened Requests
  import opened Nodes
  import opened Links
  import opened Networks
  import opened Assignment

  // ----- state encoding -----

  function Digit(d: nat): char
    requires d <= 9
  {
    "0123456789"[d]
  }

  /** The request-size category of the prefix: 2 above 5 Mbit, 1 above 3 Mbit, else 0. */
  function SizeCategory(size: real): nat {
    if size > 5e6 then 2 else if size > 3e6 then 1 else 0
  }

  /** Remaining battery: `i` without a battery limit, else low / medium / high. */
  function BatteryCategory(p: Profile, energy: real): char {
    if p.batteryCapacity == Unlimited then 'i'
    else if p.batteryCapacity - energy < 100.0 then 'l'
    else if p.batteryCapacity - energy < 1000.0 then 'm'
    else 'h'
  }

  /** The processing-power category, in J/Mbit: the processing time of the request divides
      by the node's frequency and the energy by the request size, so a node that cannot
      compute, or an empty request, raises ZeroDivisionError. */
  function PowerCategory(p: Profile, size: real): Result<nat> {
    if p.processingFrequency == 0.0 || size == 0.0 then Err(ZeroDivisionError)
    else
      var time := size * CyclePerBit / p.processingFrequency;
      var power := ProcessingEnergy(p) * time / size * 1e6;
      Ok(if power < 2.0 then 0 else if power < 5.0 then 1 else if power < 10.0 then 2 else 3)
  }

  lemma DivCancel(x: real, c: real)
    requires x != 0.0
    ensures x * c / x == c
  {
  }

  lemma MulNonNeg(a: real, b: real)
    requires a >= 0.0 && b >= 0.0
    ensures a * b >= 0.0
  {
  }

  /** The per-node request-size field as written: the test for 6 Mbit comes after the test
      for 3 Mbit. */
  function RequestSizeDigit(size: real): int {
    if size > 3e6 then 2 else if size > 6e6 then 1 else 0
  }

  /** The per-node size field is never 1: every size above 6 Mbit is already above 3 Mbit. */
  lemma RequestSizeDigitNeverOne(size: real)
    ensures RequestSizeDigit(size) != 1
    ensures RequestSizeDigit(size) == 2 <==> size > 3e6
  {
  }

  /** The request size cancels out of the power category: it depends on the node alone
      (k·f³ times the cycles per bit over f), and is 2 for a HAPS and 0 for a base
      station, while a user device raises ZeroDivisionError. */
  lemma PowerCategoryByKind(size: real)
    requires size != 0.0
    ensures PowerCategory(ProfileOf(HapsNode), size) == Ok(2)
    ensures PowerCategory(ProfileOf(BaseStationNode), size) == Ok(0)
    ensures PowerCategory(ProfileOf(UserDeviceNode), size) == Err(ZeroDivisionError)
  {
    var h := ProfileOf(HapsNode);
    assert ProcessingEnergy(h) == 125.0;
    var th := size * CyclePerBit / h.processingFrequency;
    assert th == size * 0.00000004;
    assert ProcessingEnergy(h) * th == size * 0.000005;
    DivCancel(size, 0.000005);
    var b := ProfileOf(BaseStationNode);
    assert ProcessingEnergy(b) == 27.0;
    var tb := size * CyclePerBit / b.processingFrequency;
    assert tb * 3.0 == size * 0.0000002;
    assert ProcessingEnergy(b) * tb == size * 0.0000018;
    DivCancel(size, 0.0000018);
  }

  /** `on_battery_canprocess_power_size` for one candidate. */
  function Segment(request: Request<BaseNode>, node: BaseNode): Result<string>
    reads node, request
  {
    match PowerCategory(node.profile, request.size)
    case Err(e) => Err(e)
    case Ok(pc) =>
      Ok([if node.state then '1' else '0', '_', BatteryCategory(node.profile, node.energyConsumed), '_',
          if node.CanProcess(Some(request), true) then '1' else '0', '_',
          Digit(pc), '_', Digit(RequestSizeDigit(request.size))])
  }

  /** `get_state`: `s<size category>`, then `|` and the segment of each candidate in order;
      the first candidate whose segment raises ends it. */
  function StateOf(request: Request<BaseNode>, nodes: seq<BaseNode>): Result<string>
    reads request, set n | n in nodes
  {
    if nodes == [] then Ok(['s', Digit(SizeCategory(request.size))])
    else
      match StateOf(request, nodes[..|nodes| - 1])
      case Err(e) => Err(e)
      case Ok(s) =>
        match Segment(request, nodes[|nodes| - 1])
        case Err(e) => Err(e)
        case Ok(g) => Ok(s + "|" + g)
  }

  /** The number of `|` separators in a string. */
  function Bars(s: string): nat {
    if s == [] then 0 else Bars(s[..|s| - 1]) + (if s[|s| - 1] == '|' then 1 else 0)
  }

  lemma {:induction false} BarsAppend(s: string, t: string)
    ensures Bars(s + t) == Bars(s) + Bars(t)
    decreases |t|
  {
    if t == [] {
      assert s + t == s;
    } else {
      assert (s + t)[..|s + t| - 1] == s + t[..|t| - 1];
      BarsAppend(s, t[..|t| - 1]);
    }
  }

  /** The encoding fails exactly when some candidate cannot compute, or when there is a
      candidate and the request is empty. */
  lemma {:induction false} StateFails(request: Request<BaseNode>, nodes: seq<BaseNode>)
    ensures StateOf(request, nodes).Err? <==>
      (exists i :: 0 <= i < |nodes| && nodes[i].profile.processingFrequency == 0.0) || (nodes != [] && request.size == 0.0)
  {
    if nodes != [] {
      var init := nodes[..|nodes| - 1];
      StateFails(request, init);
      if StateOf(request, init).Err? {
        var i :| (0 <= i < |init| && init[i].profile.processingFrequency == 0.0) || (init != [] && request.size == 0.0);
        if 0 <= i < |init| {
          assert init[i] == nodes[i];
        }
      } else if Segment(request, nodes[|nodes| - 1]).Ok? {
        forall i | 0 <= i < |nodes| ensures nodes[i].profile.processingFrequency != 0.0 {
          if i < |init| {
            assert init[i] == nodes[i];
          }
        }
      }
    }
  }

  /** `s` is laid out as the state of `nodes`: the size prefix, then for each candidate a
      separator and its nine-character segment, and no other separator. */
  ghost predicate LaidOut(request: Request<BaseNode>, nodes: seq<BaseNode>, s: string)
    reads request, set n | n in nodes
  {
    && |s| == 2 + 10 * |nodes|
    && Bars(s) == |nodes|
    && s[..2] == ['s', Digit(SizeCategory(request.size))]
    && forall i :: 0 <= i < |nodes| ==> s[2 + 10 * i] == '|' && Segment(request, nodes[i]) == Ok(s[3 + 10 * i..12 + 10 * i])
  }

  /** A successful encoding has one separator per candidate, length 2 + 10 per candidate,
      starts with the size category, and the ten characters after the prefix for
      candidate i are `|` and that candidate's segment, so the state determines every
      candidate's fields. */
  lemma {:induction false} StateLayout(request: Request<BaseNode>, nodes: seq<BaseNode>)
    ensures StateOf(request, nodes).Ok? ==>
      var s := StateOf(request, nodes).value;
      && |s| == 2 + 10 * |nodes|
      && Bars(s) == |nodes|
      && s[..2] == ['s', Digit(SizeCategory(request.size))]
      && forall i :: 0 <= i < |nodes| ==> s[2 + 10 * i] == '|' && Segment(request, nodes[i]) == Ok(s[3 + 10 * i..12 + 10 * i])
  {
    if nodes == [] {
      BarsNone(['s', Digit(SizeCategory(request.size))]);
    } else {
      var init := nodes[..|nodes| - 1];
      StateLayout(request, init);
      if StateOf(request, nodes).Ok? {
        var s := StateOf(request, init).value;
        var g := Segment(request, nodes[|nodes| - 1]).value;
        assert LaidOut(request, init, s);
        LayoutExtends(request, nodes, s, g);
        assert StateOf(request, nodes).value == s + "|" + g;
        assert LaidOut(request, nodes, s + "|" + g);
      }
    }
  }

  /** The inductive step of `StateLayout`: a layout of all candidates but the last, then
      a separator and the last candidate's segment, is a layout of all of them. */
  lemma LayoutExtends(request: Request<BaseNode>, nodes: seq<BaseNode>, s: string, g: string)
    requires nodes != []
    requires LaidOut(request, nodes[..|nodes| - 1], s)
    requires Segment(request, nodes[|nodes| - 1]) == Ok(g)
    ensures LaidOut(request, nodes, s + "|" + g)
  {
    var init := nodes[..|nodes| - 1];
    SegmentShape(request, nodes[|nodes| - 1]);
    AppendSegment(s, g, |init|);
    var full := s + "|" + g;
    forall i | 0 <= i < |nodes|
      ensures full[2 + 10 * i] == '|' && Segment(request, nodes[i]) == Ok(full[3 + 10 * i..12 + 10 * i])
    {
      if i < |init| {
        assert init[i] == nodes[i];
      }
    }
  }

  /** Appending a separator and a nine-character segment without separators to a state
      of n segments gives a state of n + 1 segments that keeps the earlier ones. */
  lemma AppendSegment(s: string, g: string, n: nat)
    requires |s| == 2 + 10 * n && Bars(s) == n
    requires |g| == 9 && forall i :: 0 <= i < 9 ==> g[i] != '|'
    ensures |s + "|" + g| == 2 + 10 * (n + 1) && Bars(s + "|" + g) == n + 1
    ensures (s + "|" + g)[..2] == s[..2]
    ensures forall i :: 0 <= i < n ==>
      (s + "|" + g)[2 + 10 * i] == s[2 + 10 * i] && (s + "|" + g)[3 + 10 * i..12 + 10 * i] == s[3 + 10 * i..12 + 10 * i]
    ensures (s + "|" + g)[2 + 10 * n] == '|' && (s + "|" + g)[3 + 10 * n..12 + 10 * n] == g
  {
    BarsAppend(s, "|" + g);
    BarsAppend("|", g);
    BarsNone(g);
    assert Bars("|") == 1 by {
      assert "|"[..0] == [];
    }
    assert s + "|" + g == s + ("|" + g);
    var full := s + "|" + g;
    assert full[..|s|] == s;
    forall i | 0 <= i < n
      ensures full[3 + 10 * i..12 + 10 * i] == s[3 + 10 * i..12 + 10 * i]
    {
      assert full[3 + 10 * i..12 + 10 * i] == full[..|s|][3 + 10 * i..12 + 10 * i];
    }
    assert full[|s| + 1..] == g;
  }

  /** A segment is nine characters and contains no separator. */
  lemma SegmentShape(request: Request<BaseNode>, node: BaseNode)
    ensures Segment(request, node).Ok? ==>
      |Segment(request, node).value| == 9 && forall i :: 0 <= i < 9 ==> Segment(request, node).value[i] != '|'
  {
    if Segment(request, node).Ok? {
      var pc := PowerCategory(node.profile, request.size).value;
      assert Digit(pc) in "0123456789";
      assert Digit(RequestSizeDigit(request.size)) in "0123456789";
    }
  }

  lemma {:induction false} BarsNone(s: string)
    requires forall i :: 0 <= i < |s| ==> s[i] != '|'
    ensures Bars(s) == 0
  {
    if s != [] {
      BarsNone(s[..|s| - 1]);
    }
  }

  /** `get_state` builds its parts in a loop and joins them with `|`. */
  method GetState(request: Request<BaseNode>, nodes: seq<BaseNode>) returns (r: Result<string>)
    ensures r == StateOf(request, nodes)
  {
    var parts := ['s', Digit(SizeCategory(request.size))];
    var i := 0;
    while i < |nodes|
      invariant 0 <= i <= |nodes|
      invariant StateOf(request, nodes[..i]) == Ok(parts)
    {
      assert nodes[..i + 1][..i] == nodes[..i];
      var segment := Segment(request, nodes[i]);
      if segment.Err? {
        StatePrefixError(request, nodes, i + 1);
        return Err(segment.error);
      }
      parts := parts + "|" + segment.value;
      i := i + 1;
    }
    assert nodes[..i] == nodes;
    r := Ok(parts);
  }

  /** Once the encoding of a prefix of the candidates fails, the whole encoding fails the same way. */
  lemma {:induction false} StatePrefixError(request: Request<BaseNode>, nodes: seq<BaseNode>, n: nat)
    requires n <= |nodes| && StateOf(request, nodes[..n]).Err?
    ensures StateOf(request, nodes) == StateOf(request, nodes[..n])
    decreases |nodes| - n
  {
    if n < |nodes| {
      assert nodes[..n + 1][..n] == nodes[..n];
      StatePrefixError(request, nodes, n + 1);
    } else {
      assert nodes[..n] == nodes;
    }
  }

  // ----- Q-values -----

  function Zeros(n: nat): seq<real> {
    seq(n, _ => 0.0)
  }

  /** The table after `get_q_values(state, n)`: an unseen state gets n zeros, a known one
      is left as it is. */
  function Inserted(table: map<string, seq<real>>, state: string, n: nat): (r: map<string, seq<real>>)
    ensures state in r && r.Keys == table.Keys + {state}
    ensures forall s :: s in table ==> r[s] == table[s]
    ensures state !in table ==> r[state] == Zeros(n)
  {
    if state in table then table else table[state := Zeros(n)]
  }

  /** `np.argmax`: the first index holding the largest value. */
  function ArgMax(s: seq<real>): (k: nat)
    requires |s| > 0
    ensures k < |s|
    ensures forall j :: 0 <= j < |s| ==> s[j] <= s[k]
    ensures forall j :: 0 <= j < k ==> s[j] < s[k]
  {
    if |s| == 1 then 0
    else
      var k := ArgMax(s[..|s| - 1]);
      if s[|s| - 1] > s[k] then |s| - 1 else k
  }

  /** The temporal-difference update: `(1-α)·current + α·target`, where the target is the
      reward plus the discounted best next value, or the reward alone at a terminal state. */
  function TdValue(alpha: real, gamma: real, current: real, reward: real, nextMax: Option<real>): real {
    match nextMax
    case None => (1.0 - alpha) * current + alpha * reward
    case Some(m) => (1.0 - alpha) * current + alpha * (reward + gamma * m)
  }

  /** For a learning rate in [0, 1] the new value lies between the current value and the
      target; rate 0 keeps the current value and rate 1 takes the target. */
  lemma TdBetween(alpha: real, gamma: real, current: real, reward: real, nextMax: Option<real>)
    requires 0.0 <= alpha <= 1.0
    ensures var target := if nextMax.Some? then reward + gamma * nextMax.value else reward;
      && Min(current, target) <= TdValue(alpha, gamma, current, reward, nextMax) <= Max(current, target)
      && (alpha == 0.0 ==> TdValue(alpha, gamma, current, reward, nextMax) == current)
      && (alpha == 1.0 ==> TdValue(alpha, gamma, current, reward, nextMax) == target)
  {
    var target := if nextMax.Some? then reward + gamma * nextMax.value else reward;
    assert TdValue(alpha, gamma, current, reward, nextMax) == current + alpha * (target - current);
    var d := target - current;
    if current <= target {
      MulNonNeg(alpha, d);
      MulNonNeg(1.0 - alpha, d);
    } else {
      MulNonNeg(alpha, -d);
      MulNonNeg(1.0 - alpha, -d);
    }
  }

  /** `update` after its guard on `last_state`: the (outcome, table) pair. With a next state
      the table first gets that state's entry; a next state with no actions makes
      `np.max` raise ValueError, otherwise one entry of the last state is rewritten. */
  function AfterUpdate(table: map<string, seq<real>>, ls: string, la: int, alpha: real, gamma: real, reward: real,
                       next: Option<(string, nat)>): (Result<()>, map<string, seq<real>>)
    requires ls in table && 0 <= la < |table[ls]|
  {
    match next
    case None => (Ok(()), table[ls := table[ls][la := TdValue(alpha, gamma, table[ls][la], reward, None)]])
    case Some((s, n)) =>
      var t := Inserted(table, s, n);
      if |t[s]| == 0 then (Err(ValueError("zero-size array to reduction operation maximum which has no identity")), t)
      else (Ok(()), t[ls := t[ls][la := TdValue(alpha, gamma, t[ls][la], reward, Some(t[s][ArgMax(t[s])]))]])
  }

  /** The update changes one value: apart from the entry a next state may add, every state
      keeps its values, and the last state keeps all values but the one of the last action,
      which is the TD value computed from the best value of the next state. */
  lemma UpdateTouchesOneValue(table: map<string, seq<real>>, ls: string, la: int, alpha: real, gamma: real, reward: real,
                              next: Option<(string, nat)>)
    requires ls in table && 0 <= la < |table[ls]|
    ensures var (r, t) := AfterUpdate(table, ls, la, alpha, gamma, reward, next);
      var base := if next.Some? then Inserted(table, next.value.0, next.value.1) else table;
      && t.Keys == base.Keys
      && (forall s :: s in base && s != ls ==> t[s] == base[s])
      && |t[ls]| == |table[ls]|
      && (forall j :: 0 <= j < |table[ls]| && j != la ==> t[ls][j] == table[ls][j])
      && (r.Ok? && next.None? ==> t[ls][la] == TdValue(alpha, gamma, table[ls][la], reward, None))
      && (r.Ok? && next.Some? ==>
            exists m :: (&& m in base[next.value.0] && (forall v :: v in base[next.value.0] ==> v <= m)
                         && t[ls][la] == TdValue(alpha, gamma, base[ls][la], reward, Some(m))))
      && (r.Err? <==> next.Some? && |base[next.value.0]| == 0)
      && (r.Err? ==> t == base)
  {
    if next.Some? {
      var b := Inserted(table, next.value.0, next.value.1);
      var e := b[next.value.0];
      if |e| > 0 {
        var k := ArgMax(e);
        forall v | v in e ensures v <= e[k] {
          var j :| 0 <= j < |e| && e[j] == v;
        }
      }
    }
  }

  // ----- rewards -----

  /** The first link whose receiver is the node (the `for ... break` over the links). */
  function FirstLinkTo(links: seq<CommunicationLink>, node: BaseNode): (r: Option<CommunicationLink>)
    ensures r.Some? ==> r.value in links && r.value.nodeB == node
    ensures r.None? <==> forall l :: l in links ==> l.nodeB != node
  {
    if links == [] then None
    else if links[0].nodeB == node then Some(links[0])
    else FirstLinkTo(links[1..], node)
  }

  /** The link search of `select_compute_node`, which keeps the first match. */
  method FindLinkTo(links: seq<CommunicationLink>, node: BaseNode) returns (r: Option<CommunicationLink>)
    ensures r == FirstLinkTo(links, node)
  {
    var i := 0;
    while i < |links|
      invariant 0 <= i <= |links|
      invariant FirstLinkTo(links, node) == FirstLinkTo(links[i..], node)
    {
      assert links[i..][1..] == links[i + 1..];
      if links[i].nodeB == node {
        return Some(links[i]);
      }
      i := i + 1;
    }
    return None;
  }

  /** The reward `select_compute_node` computes for the previous action once its request
      is known: -100 for a failed request; for a completed one whose action still indexes
      the candidates, minus the square of the energy per Mbit spent on it (processing on
      the chosen node plus transmission over the first link into it, divided by the size
      of the NEW request); 0 otherwise. */
  function PreviousReward(net: Network, last: Request<BaseNode>, action: int, request: Request<BaseNode>,
                          nodes: seq<BaseNode>, dbmToWatt: real -> real): Result<real>
    reads net, last, request
  {
    if last.status == Failed then Ok(-100.0)
    else if last.status == Completed && 0 <= action < |nodes| then
      var node := nodes[action];
      match ProcessingTime(node.profile, last.size)
      case Err(e) => Err(e)
      case Ok(t) =>
        var processing := ProcessingEnergy(node.profile) * t;
        var transmission :=
          match FirstLinkTo(net.links, node)
          case None => 0.0
          case Some(l) => dbmToWatt(node.profile.transmissionPower) * (last.size / l.config.totalBandwidth);
        if request.size == 0.0 then Err(ZeroDivisionError)
        else
          var perMbit := (processing + transmission) / request.size * 1e6;
          Ok(-(perMbit * perMbit))
    else Ok(0.0)
  }

  /** The reward computation at the start of `select_compute_node`. */
  method ComputePreviousReward(net: Network, last: Request<BaseNode>, action: int, request: Request<BaseNode>,
                               nodes: seq<BaseNode>, dbmToWatt: real -> real) returns (r: Result<real>)
    ensures r == PreviousReward(net, last, action, request, nodes, dbmToWatt)
  {
    if last.status == Failed {
      return Ok(-100.0);
    }
    if !(last.status == Completed && 0 <= action < |nodes|) {
      return Ok(0.0);
    }
    var node := nodes[action];
    var link := FindLinkTo(net.links, node);
    var time := ProcessingTime(node.profile, last.size);
    if time.Err? {
      return Err(time.error);
    }
    var processing := ProcessingEnergy(node.profile) * time.value;
    var transmission := 0.0;
    if link.Some? {
      transmission := dbmToWatt(node.profile.transmissionPower) * (last.size / link.value.config.totalBandwidth);
    }
    if request.size == 0.0 {
      return Err(ZeroDivisionError);
    }
    var perMbit := (processing + transmission) / request.size * 1e6;
    var spec := PreviousReward(net, last, action, request, nodes, dbmToWatt);
    assert spec.Ok?;
    assert spec.value == -(perMbit * perMbit);
    r := Ok(-(perMbit * perMbit));
  }

  /** Every reward for a previous action is at most 0, and exactly -100 for a failed request. */
  lemma PreviousRewardRange(net: Network, last: Request<BaseNode>, action: int, request: Request<BaseNode>,
                            nodes: seq<BaseNode>, dbmToWatt: real -> real)
    ensures var r := PreviousReward(net, last, action, request, nodes, dbmToWatt);
      && (r.Ok? ==> r.value <= 0.0)
      && (last.status == Failed ==> r == Ok(-100.0))
      && (last.status != Failed && last.status != Completed ==> r == Ok(0.0))
      && (r.Err? ==> r.error == ZeroDivisionError && last.status == Completed)
  {
    var r := PreviousReward(net, last, action, request, nodes, dbmToWatt);
    if r.Ok? && last.status != Failed && last.status == Completed && 0 <= action < |nodes| {
      var node := nodes[action];
      var t := ProcessingTime(node.profile, last.size).value;
      var transmission :=
        match FirstLinkTo(net.links, node)
        case None => 0.0
        case Some(l) => dbmToWatt(node.profile.transmissionPower) * (last.size / l.config.totalBandwidth);
      var perMbit := (ProcessingEnergy(node.profile) * t + transmission) / request.size * 1e6;
      if perMbit < 0.0 {
        MulNonNeg(-perMbit, -perMbit);
      } else {
        MulNonNeg(perMbit, perMbit);
      }
    }
  }

  /** `calculate_request_reward` as written: the completion time in ticks is compared with
      the QoS limit in seconds. */
  function RequestReward(request: Request<BaseNode>, selected: BaseNode, now: int): Result<real>
    reads request
  {
    if request.status == Failed then Ok(-100.0)
    else if request.status == Completed then
      match ProcessingTime(selected.profile, request.size)
      case Err(e) => Err(e)
      case Ok(t) =>
        var energy := ProcessingEnergy(selected.profile) * t / 1000.0;
        Ok((if (now - request.creationTime) as real <= request.qosLimit then 50.0 else -50.0) - energy * 10.0)
    else Ok(0.0)
  }

  /** `calculate_request_reward` with the completion time converted to seconds, as the QoS
      check of `update_status` does. */
  function RequestRewardInSeconds(request: Request<BaseNode>, selected: BaseNode, now: int): Result<real>
    reads request
  {
    if request.status == Failed then Ok(-100.0)
    else if request.status == Completed then
      match ProcessingTime(selected.profile, request.size)
      case Err(e) => Err(e)
      case Ok(t) =>
        var energy := ProcessingEnergy(selected.profile) * t / 1000.0;
        Ok((if (now - request.creationTime) as real * request.tickTime <= request.qosLimit then 50.0 else -50.0) - energy * 10.0)
    else Ok(0.0)
  }

  /** A request completed within its QoS limit (measured in seconds) earns exactly 100 more
      than one completed late on the same node, rewards are at most 50 for a node of
      non-negative processing power, and only a node that cannot compute makes the reward
      raise. */
  lemma RequestRewardShape(request: Request<BaseNode>, selected: BaseNode, now: int, later: int)
    requires request.status == Completed && request.size >= 0.0
    requires selected.profile.kConst >= 0.0 && selected.profile.processingFrequency >= 0.0
    requires (now - request.creationTime) as real * request.tickTime <= request.qosLimit
    requires !((later - request.creationTime) as real * request.tickTime <= request.qosLimit)
    ensures RequestRewardInSeconds(request, selected, now).Err? <==> selected.profile.processingFrequency == 0.0
    ensures RequestRewardInSeconds(request, selected, now).Ok? ==>
      && RequestRewardInSeconds(request, selected, now).value == RequestRewardInSeconds(request, selected, later).value + 100.0
      && RequestRewardInSeconds(request, selected, now).value <= 50.0
  {
    var p := selected.profile;
    if p.processingFrequency != 0.0 {
      var t := ProcessingTime(p, request.size).value;
      MulNonNeg(p.kConst * p.processingFrequency, p.processingFrequency);
      MulNonNeg(p.kConst * p.processingFrequency * p.processingFrequency, p.processingFrequency);
      MulNonNeg(p.kConst, p.processingFrequency);
      MulNonNeg(ProcessingEnergy(p), t);
    }
  }

  /** The reward as written punishes a request that met its QoS limit: with one tick of
      0.1 s, a request created at tick 0 and completed at tick 5 took 0.5 s, within the
      0.5 s limit of a medium-priority request, yet 5 ticks exceed 0.5. */
  lemma RequestRewardUnitMismatch(request: Request<BaseNode>, selected: BaseNode)
    requires request.status == Completed && request.creationTime == 0 && request.tickTime == 0.1
    requires request.qosLimit == 0.5 && request.size == 4e6
    requires selected.profile == ProfileOf(BaseStationNode)
    ensures RequestRewardInSeconds(request, selected, 5).Ok? && RequestReward(request, selected, 5).Ok?
    ensures RequestRewardInSeconds(request, selected, 5).value == RequestReward(request, selected, 5).value + 100.0
  {
    assert (5 - request.creationTime) as real * request.tickTime == 0.5;
  }

  // ----- the learner -----

  class QLearningAssignment {
    const network: Network
    const epsilon: real
    const alpha: real
    const gamma: real
    var qTable: map<string, seq<real>>
    var lastState: Option<string>
    var lastAction: Option<int>
    var lastRequest: Option<Request<BaseNode>>

    /** Every entry holds one value per candidate its state encodes; the last state, action
        and request are recorded together, and the last action indexes the last state's entry. */
    ghost predicate Valid()
      reads this
    {
      && (forall s :: s in qTable ==> |qTable[s]| == Bars(s))
      && (lastState.Some? <==> lastAction.Some?)
      && (lastState.Some? <==> lastRequest.Some?)
      && (lastState.Some? ==> lastState.value in qTable && 0 <= lastAction.value < |qTable[lastState.value]|)
    }

    /** A learner with an empty table (loading a saved table is not modelled). */
    constructor (network: Network, epsilon: real, alpha: real, gamma: real)
      ensures this.network == network && this.epsilon == epsilon && this.alpha == alpha && this.gamma == gamma
      ensures qTable == map[] && lastState == None && lastAction == None && lastRequest == None
      ensures Valid()
    {
      this.network := network;
      this.epsilon := epsilon;
      this.alpha := alpha;
      this.gamma := gamma;
      qTable := map[];
      lastState := None;
      lastAction := None;
      lastRequest := None;
    }

    /** `get_q_values`: an unseen state gets `n` zeros; a known one is returned as stored. */
    method GetQValues(state: string, n: nat) returns (q: seq<real>)
      modifies this`qTable
      ensures qTable == Inserted(old(qTable), state, n) && q == qTable[state]
    {
      if state !in qTable {
        qTable := qTable[state := Zeros(n)];
      }
      q := qTable[state];
    }

    /** What `update(reward, new_request, nodes)` does: nothing before the first action;
        otherwise the TD update of the last (state, action), towards the reward alone when
        there is no new request and else through the new request's state, whose encoding
        may raise. */
    ghost function UpdateOutcome(reward: real, newRequest: Option<Request<BaseNode>>, nodes: seq<BaseNode>): (Result<()>, map<string, seq<real>>)
      reads this, if newRequest.Some? then {newRequest.value} else {}, set n | n in nodes
      requires Valid()
    {
      if lastState.None? then (Ok(()), qTable)
      else if newRequest.None? then AfterUpdate(qTable, lastState.value, lastAction.value, alpha, gamma, reward, None)
      else
        match StateOf(newRequest.value, nodes)
        case Err(e) => (Err(e), qTable)
        case Ok(s) => AfterUpdate(qTable, lastState.value, lastAction.value, alpha, gamma, reward, Some((s, |nodes|)))
    }

    method Update(reward: real, newRequest: Option<Request<BaseNode>>, nodes: seq<BaseNode>) returns (r: Result<()>)
      requires Valid()
      modifies this`qTable
      ensures Valid()
      ensures (r, qTable) == old(UpdateOutcome(reward, newRequest, nodes))
    {
      if lastState.None? {
        return Ok(());
      }
      var ls := lastState.value;
      var la := lastAction.value;
      if newRequest.None? {
        var current := qTable[ls][la];
        qTable := qTable[ls := qTable[ls][la := TdValue(alpha, gamma, current, reward, None)]];
        return Ok(());
      }
      var newState := GetState(newRequest.value, nodes);
      if newState.Err? {
        return Err(newState.error);
      }
      StateLayout(newRequest.value, nodes);
      var next := GetQValues(newState.value, |nodes|);
      if |next| == 0 {
        return Err(ValueError("zero-size array to reduction operation maximum which has no identity"));
      }
      var nextMax := next[ArgMax(next)];
      var current := qTable[ls][la];
      qTable := qTable[ls := qTable[ls][la := TdValue(alpha, gamma, current, reward, Some(nextMax))]];
      r := Ok(());
    }

    /** The learning step that opens `select_compute_node`: once an action has been taken,
        its reward is computed and the table updated through the new request's state. */
    ghost function LearnOutcome(request: Request<BaseNode>, nodes: seq<BaseNode>, dbmToWatt: real -> real): (Result<()>, map<string, seq<real>>)
      reads this, network, request, set n | n in nodes, if lastRequest.Some? then {lastRequest.value} else {}
      requires Valid()
    {
      if lastRequest.None? then (Ok(()), qTable)
      else
        match PreviousReward(network, lastRequest.value, lastAction.value, request, nodes, dbmToWatt)
        case Err(e) => (Err(e), qTable)
        case Ok(v) => UpdateOutcome(v, Some(request), nodes)
    }

    method Learn(request: Request<BaseNode>, nodes: seq<BaseNode>, dbmToWatt: real -> real) returns (r: Result<()>)
      requires Valid()
      modifies this`qTable
      ensures Valid()
      ensures (r, qTable) == old(LearnOutcome(request, nodes, dbmToWatt))
    {
      if lastRequest.None? {
        return Ok(());
      }
      var reward := ComputePreviousReward(network, lastRequest.value, lastAction.value, request, nodes, dbmToWatt);
      if reward.Err? {
        return Err(reward.error);
      }
      r := Update(reward.value, Some(request), nodes);
    }

    /** The first phase of `select_compute_node`: learn from the previous action, then
        encode the state of the new request. Learning leaves the request and the nodes
        alone, so the state is that of the nodes on entry. */
    method Observe(request: Request<BaseNode>, nodes: seq<BaseNode>, dbmToWatt: real -> real) returns (r: Result<string>)
      requires Valid()
      modifies this`qTable
      ensures Valid()
      ensures qTable == old(LearnOutcome(request, nodes, dbmToWatt)).1
      ensures old(LearnOutcome(request, nodes, dbmToWatt)).0.Err? ==> r == Err(old(LearnOutcome(request, nodes, dbmToWatt)).0.error)
      ensures old(LearnOutcome(request, nodes, dbmToWatt)).0.Ok? ==> r == old(StateOf(request, nodes))
    {
      // The encoding is computed first: it reads nothing learning changes.
      var state := GetState(request, nodes);
      var learned := Learn(request, nodes, dbmToWatt);
      if learned.Err? {
        return Err(learned.error);
      }
      r := state;
    }

    /** With no candidate, learning either succeeds or raises ValueError: the new state has
        no separator, so its entry is empty and its maximum undefined. */
    lemma LearnOnEmpty(request: Request<BaseNode>, dbmToWatt: real -> real)
      requires Valid()
      ensures LearnOutcome(request, [], dbmToWatt).0.Err? ==> LearnOutcome(request, [], dbmToWatt).0.error.ValueError?
    {
      StateLayout(request, []);
    }

    /** The epsilon-greedy step of `select_compute_node` on the values `q` of a state already
        in the table: explore (any candidate) when the draw is below epsilon, else exploit
        (the first candidate of highest value); then record state, action and request. */
    method Act(state: string, q: seq<real>, roll: real, request: Request<BaseNode>) returns (action: nat)
      requires Valid() && state in qTable && q == qTable[state] && |q| > 0
      modifies this`lastState, this`lastAction, this`lastRequest
      ensures Valid() && action < |q|
      ensures lastState == Some(state) && lastAction == Some(action) && lastRequest == Some(request)
      ensures roll >= epsilon ==> action == ArgMax(q)
    {
      if roll < epsilon {
        action :| action < |q|;
      } else {
        action := ArgMax(q);
      }
      lastState := Some(state);
      lastAction := Some(action);
      lastRequest := Some(request);
    }

    /** `select_compute_node`: learn from the previous action, encode the state, make sure
        the table has it, then explore (a uniform draw `roll` below epsilon picks any
        candidate) or exploit (the first candidate of highest value), record the state,
        action and request, and return the candidate with its path and delay. No candidate
        raises ValueError. The index check after `np.argmax` never fires, because every
        entry holds one value per candidate. */
    method SelectComputeNode(request: Request<BaseNode>, nodes: seq<BaseNode>, roll: real,
                             efficiency: CommunicationLink -> PosReal, dbmToWatt: real -> real)
      returns (r: Result<Selection>)
      requires Valid() && 0.0 <= roll < 1.0
      modifies this`qTable, this`lastState, this`lastAction, this`lastRequest
      ensures Valid()
      ensures nodes == [] ==> r.Err? && r.error.ValueError?
      ensures old(LearnOutcome(request, nodes, dbmToWatt)).0.Err? ==>
        && r == Err(old(LearnOutcome(request, nodes, dbmToWatt)).0.error)
        && qTable == old(LearnOutcome(request, nodes, dbmToWatt)).1
        && lastState == old(lastState) && lastAction == old(lastAction) && lastRequest == old(lastRequest)
      ensures old(LearnOutcome(request, nodes, dbmToWatt)).0.Ok? && old(StateOf(request, nodes)).Err? ==>
        && r == Err(old(StateOf(request, nodes)).error)
        && qTable == old(LearnOutcome(request, nodes, dbmToWatt)).1
        && lastState == old(lastState) && lastAction == old(lastAction) && lastRequest == old(lastRequest)
      ensures old(LearnOutcome(request, nodes, dbmToWatt)).0.Ok? && old(StateOf(request, nodes)).Ok? ==>
        qTable == Inserted(old(LearnOutcome(request, nodes, dbmToWatt)).1, old(StateOf(request, nodes)).value, |nodes|)
      ensures old(LearnOutcome(request, nodes, dbmToWatt)).0.Ok? && old(StateOf(request, nodes)).Ok? && nodes == [] ==>
        lastState == old(lastState) && lastAction == old(lastAction) && lastRequest == old(lastRequest)
      ensures old(LearnOutcome(request, nodes, dbmToWatt)).0.Ok? && old(StateOf(request, nodes)).Ok? && nodes != [] ==>
        && lastRequest == Some(request) && Ok(lastState.value) == old(StateOf(request, nodes))
        && 0 <= lastAction.value < |nodes|
        && (roll >= epsilon ==> lastAction.value == ArgMax(qTable[lastState.value]))
        && (PathTo(network, request, nodes[lastAction.value]).Err? ==>
              r == Err(PathTo(network, request, nodes[lastAction.value]).error))
        && (PathTo(network, request, nodes[lastAction.value]).Ok? ==>
              && r.Ok? && r.value.Selected? && r.value.node == nodes[lastAction.value]
              && PathTo(network, request, r.value.node) == Ok(r.value.path)
              && r.value.cost == PathDelay(network.links, r.value.path, request.size, efficiency))
      ensures r.Ok? ==> old(LearnOutcome(request, nodes, dbmToWatt)).0.Ok? && old(StateOf(request, nodes)).Ok? && nodes != []
    {
      if nodes == [] {
        LearnOnEmpty(request, dbmToWatt);
      }
      var state := Observe(request, nodes, dbmToWatt);
      if state.Err? {
        return Err(state.error);
      }
      StateLayout(request, nodes);
      r := Choose(state.value, request, nodes, roll, efficiency);
    }

    /** The second phase of `select_compute_node`, once the state is encoded: make sure the
        table has the state, refuse an empty candidate list with ValueError, otherwise
        take the epsilon-greedy action, record state, action and request, and route the
        request to the chosen candidate; a path error surfaces after the recording. */
    method Choose(state: string, request: Request<BaseNode>, nodes: seq<BaseNode>, roll: real,
                  efficiency: CommunicationLink -> PosReal)
      returns (r: Result<Selection>)
      requires Valid() && Bars(state) == |nodes|
      modifies this`qTable, this`lastState, this`lastAction, this`lastRequest
      ensures Valid()
      ensures qTable == Inserted(old(qTable), state, |nodes|)
      ensures nodes == [] ==>
        && r == Err(ValueError("No valid nodes available for assignment"))
        && lastState == old(lastState) && lastAction == old(lastAction) && lastRequest == old(lastRequest)
      ensures nodes != [] ==>
        && lastRequest == Some(request) && lastState == Some(state)
        && 0 <= lastAction.value < |nodes|
        && (roll >= epsilon ==> lastAction.value == ArgMax(qTable[state]))
        && (PathTo(network, request, nodes[lastAction.value]).Err? ==>
              r == Err(PathTo(network, request, nodes[lastAction.value]).error))
        && (PathTo(network, request, nodes[lastAction.value]).Ok? ==>
              && r.Ok? && r.value.Selected? && r.value.node == nodes[lastAction.value]
              && PathTo(network, request, r.value.node) == Ok(r.value.path)
              && r.value.cost == PathDelay(network.links, r.value.path, request.size, efficiency))
    {
      var q := GetQValues(state, |nodes|);
      if |nodes| == 0 {
        return Err(ValueError("No valid nodes available for assignment"));
      }
      var action := Act(state, q, roll, request);
      r := Route(network, request, nodes[action], efficiency);
    }
  }
}
