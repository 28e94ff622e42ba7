/** The power strategies of algorithms/power/: each visits the listed nodes in order and
    turns every one on or off (all-on, on-demand), or does so only after an idle timeout
    (on-demand-with-timeout), or keeps a random subset on (random). A node is switched
    only through `_turn_on` and `_turn_off`, so the only energy ever charged is the
    turn-on peak of an off-to-on switch, and a depleted battery blocks turning on. */
module Power {
  import opened Common
  import opened Nodes
  import opened Networks

  /** What a strategy does to one node: `_turn_on`, `_turn_off`, or nothing. */
  datatype Command = On | Off | Keep

  /** (state, energy) of a node after one command. */
  function Switched(p: Profile, c: Command, on: bool, energy: real): (bool, real) {
    match c
    case On => TurnOnStep(p, on, energy)
    case Off => (false, energy)
    case Keep => (on, energy)
  }

  /** A command switches a node on only when it is `On` and the battery allows it, off
      only when it is `Off`; the energy grows by the turn-on peak exactly when an off node
      is switched on, and by nothing otherwise. */
  lemma SwitchedCharges(p: Profile, c: Command, on: bool, energy: real)
    ensures var (s, e) := Switched(p, c, on, energy);
      && e == energy + (if !on && s then p.turnOnEnergyPeak else 0.0)
      && (c == On ==> s == (on || !Depleted(p, energy)))
      && (c == Off ==> !s)
      && (c == Keep ==> s == on)
  {
    TurnOnChargesOnce(p, on, energy);
  }

  /** Giving a node the same command twice is the same as giving it once, so a node
      listed twice ends as if listed once. */
  lemma SwitchedTwice(p: Profile, c: Command, on: bool, energy: real)
    ensures var (s, e) := Switched(p, c, on, energy);
      Switched(p, c, s, e) == (s, e)
  {
    TurnOnChargesOnce(p, on, energy);
  }

  /** One command, carried out through `_turn_on` or `_turn_off`. */
  method Execute(node: BaseNode, c: Command)
    modifies node`state, node`energyConsumed
    ensures (node.state, node.energyConsumed) == Switched(node.profile, c, old(node.state), old(node.energyConsumed))
  {
    match c {
      case On => node.TurnOn();
      case Off => node.TurnOff();
      case Keep =>
    }
  }

  // ----- all-on and on-demand -----

  /** `AllOnPowerStrategy.apply_strategy`: `_turn_on` on every listed node. Nodes not
      listed are untouched (the frame), and only state and energy change. */
  method ApplyAllOn(nodes: seq<BaseNode>)
    modifies Members(nodes)`state, Members(nodes)`energyConsumed
    ensures forall n :: n in nodes ==>
      (n.state, n.energyConsumed) == Switched(n.profile, On, old(n.state), old(n.energyConsumed))
  {
    var i := 0;
    while i < |nodes|
      invariant 0 <= i <= |nodes|
      invariant forall n :: n in nodes ==>
        (n.state, n.energyConsumed) == if n in nodes[..i] then Switched(n.profile, On, old(n.state), old(n.energyConsumed))
        else (old(n.state), old(n.energyConsumed))
    {
      var node := nodes[i];
      SwitchedTwice(node.profile, On, old(node.state), old(node.energyConsumed));
      Execute(node, On);
      assert nodes[..i + 1] == nodes[..i] + [node];
      i := i + 1;
    }
    assert nodes[..i] == nodes;
  }

  /** The on-demand rule: on when the processing queue is non-empty, else off. */
  function OnDemandCommand(busy: bool): Command {
    if busy then On else Off
  }

  /** `OnDemandPowerStrategy.apply_strategy`: a node with queued work is turned on, any
      other is turned off. */
  method ApplyOnDemand(nodes: seq<BaseNode>)
    modifies Members(nodes)`state, Members(nodes)`energyConsumed
    ensures forall n :: n in nodes ==>
      (n.state, n.energyConsumed) == Switched(n.profile, OnDemandCommand(|n.processingQueue| > 0), old(n.state), old(n.energyConsumed))
  {
    var i := 0;
    while i < |nodes|
      invariant 0 <= i <= |nodes|
      invariant forall n :: n in nodes ==>
        (n.state, n.energyConsumed) == if n in nodes[..i] then Switched(n.profile, OnDemandCommand(|n.processingQueue| > 0), old(n.state), old(n.energyConsumed))
        else (old(n.state), old(n.energyConsumed))
    {
      var node := nodes[i];
      var c := if |node.processingQueue| > 0 then On else Off;
      SwitchedTwice(node.profile, c, old(node.state), old(node.energyConsumed));
      Execute(node, c);
      assert nodes[..i + 1] == nodes[..i] + [node];
      i := i + 1;
    }
    assert nodes[..i] == nodes;
  }

  /** Under on-demand a busy node ends on unless its battery is depleted, an idle node
      ends off, and only an off-to-on switch is charged: turning off costs nothing. */
  lemma OnDemandOutcome(p: Profile, busy: bool, on: bool, energy: real)
    ensures var (s, e) := Switched(p, OnDemandCommand(busy), on, energy);
      && s == (busy && (on || !Depleted(p, energy)))
      && e == energy + (if !on && s then p.turnOnEnergyPeak else 0.0)
      && (!busy ==> e == energy)
  {
    SwitchedCharges(p, OnDemandCommand(busy), on, energy);
  }

  // ----- on-demand with timeout -----

  /** What the timeout loop sees of a node: its id and whether its queue is non-empty. */
  function Entries(nodes: seq<BaseNode>): (es: seq<(int, bool)>)
    reads Members(nodes)
    ensures |es| == |nodes|
    ensures forall k :: 0 <= k < |nodes| ==> es[k] == (nodes[k].nodeId, |nodes[k].processingQueue| > 0)
  {
    if nodes == [] then []
    else
      var last := nodes[|nodes| - 1];
      Entries(nodes[..|nodes| - 1]) + [(last.nodeId, |last.processingQueue| > 0)]
  }

  /** One visit of the timeout loop: a busy node is stamped with the time and turned on;
      an idle node whose stamp is strictly older than the timeout is turned off and its
      stamp deleted; any other node is left alone. */
  function TimeoutStep(m: map<int, real>, id: int, busy: bool, time: real, timeout: real): (Command, map<int, real>) {
    if busy then (On, m[id := time])
    else if id in m && time - m[id] > timeout then (Off, m - {id})
    else (Keep, m)
  }

  /** The timeout loop over (id, busy) entries: the command given at each position, and
      the stamps afterwards. */
  function TimeoutPass(m: map<int, real>, es: seq<(int, bool)>, time: real, timeout: real): (r: (seq<Command>, map<int, real>))
    ensures |r.0| == |es|
    decreases |es|
  {
    if es == [] then ([], m)
    else
      var (cs, stamps) := TimeoutPass(m, es[..|es| - 1], time, timeout);
      var (c, after) := TimeoutStep(stamps, es[|es| - 1].0, es[|es| - 1].1, time, timeout);
      (cs + [c], after)
  }

  lemma {:induction false} TimeoutPassPrefix(m: map<int, real>, es: seq<(int, bool)>, j: nat, time: real, timeout: real)
    requires j <= |es|
    ensures TimeoutPass(m, es[..j], time, timeout).0 == TimeoutPass(m, es, time, timeout).0[..j]
    decreases |es|
  {
    if j < |es| {
      var init := es[..|es| - 1];
      assert es[..j] == init[..j];
      TimeoutPassPrefix(m, init, j, time, timeout);
    } else {
      assert es[..j] == es;
    }
  }

  /** The command at position i is the step taken from the stamps the first i entries left. */
  lemma TimeoutPassAt(m: map<int, real>, es: seq<(int, bool)>, i: nat, time: real, timeout: real)
    requires i < |es|
    ensures var (c, after) := TimeoutStep(TimeoutPass(m, es[..i], time, timeout).1, es[i].0, es[i].1, time, timeout);
      && TimeoutPass(m, es, time, timeout).0[i] == c
      && TimeoutPass(m, es[..i + 1], time, timeout).1 == after
  {
    assert es[..i + 1][..i] == es[..i];
    TimeoutPassPrefix(m, es, i + 1, time, timeout);
  }

  /** What the loop promises about commands and stamps: a position gets `On` exactly when
      its node is busy; every stamp afterwards is the time or a stamp kept from before; a
      stamped id was stamped before or belongs to a busy node; and with a non-negative
      timeout every busy node's id ends stamped with the time. */
  lemma {:induction false} TimeoutPassFacts(m: map<int, real>, es: seq<(int, bool)>, time: real, timeout: real)
    ensures var (cs, stamps) := TimeoutPass(m, es, time, timeout);
      && (forall k :: 0 <= k < |es| ==> (cs[k] == On <==> es[k].1))
      && (forall id :: id in stamps ==> stamps[id] == time || (id in m && stamps[id] == m[id]))
      && (forall id :: id in stamps ==> id in m || (id, true) in es)
      && (timeout >= 0.0 ==> forall k :: 0 <= k < |es| && es[k].1 ==> es[k].0 in stamps && stamps[es[k].0] == time)
    decreases |es|
  {
    if es != [] {
      var init := es[..|es| - 1];
      TimeoutPassFacts(m, init, time, timeout);
      var (cs, stamps) := TimeoutPass(m, init, time, timeout);
      var (id, busy) := es[|es| - 1];
      assert es == init + [(id, busy)];
      var (c, after) := TimeoutStep(stamps, id, busy, time, timeout);
      assert TimeoutPass(m, es, time, timeout) == (cs + [c], after);
      forall x | x in after
        ensures x in m || (x, true) in es
      {
        if x in stamps {
          assert x in m || (x, true) in init;
        } else {
          assert es[|es| - 1] == (x, true);
        }
      }
    }
  }

  /** A node the timeout loop turns off had a stamp older than the timeout, so an id never
      stamped (absent before and never busy earlier in the list) is never switched off. */
  lemma TimeoutOffNeedsStamp(m: map<int, real>, es: seq<(int, bool)>, k: nat, time: real, timeout: real)
    requires k < |es|
    ensures TimeoutPass(m, es, time, timeout).0[k] == Off ==>
      && !es[k].1
      && var stamps := TimeoutPass(m, es[..k], time, timeout).1;
         es[k].0 in stamps && time - stamps[es[k].0] > timeout
         && (es[k].0 in m || (es[k].0, true) in es[..k])
  {
    TimeoutPassAt(m, es, k, time, timeout);
    TimeoutPassFacts(m, es[..k], time, timeout);
  }

  /** Whether one of the first i positions of `n` in the list got command `c`. */
  predicate Hit(nodes: seq<BaseNode>, cs: seq<Command>, n: BaseNode, c: Command, i: nat)
    requires i <= |nodes| == |cs|
  {
    exists k :: 0 <= k < i && nodes[k] == n && cs[k] == c
  }

  lemma HitNext(nodes: seq<BaseNode>, cs: seq<Command>, n: BaseNode, c: Command, i: nat)
    requires i < |nodes| == |cs|
    ensures Hit(nodes, cs, n, c, i + 1) == (Hit(nodes, cs, n, c, i) || (nodes[i] == n && cs[i] == c))
  {
  }

  /** A node's (state, energy) under the timeout loop: untouched until visited; then on
      (battery permitting) when busy, off when some visit turned it off, else unchanged. */
  function Timed(p: Profile, visited: bool, busy: bool, off: bool, on: bool, energy: real): (bool, real) {
    if !visited then (on, energy)
    else if busy then Switched(p, On, on, energy)
    else if off then (false, energy)
    else (on, energy)
  }

  /** One more visit: a command that is `On` exactly for a busy node moves the node to
      its visited outcome, recording whether the visit turned it off. */
  lemma TimedNext(p: Profile, visited: bool, busy: bool, off: bool, on: bool, energy: real, c: Command)
    requires (c == On <==> busy) && (off ==> visited)
    ensures var (s, e) := Timed(p, visited, busy, off, on, energy);
      Switched(p, c, s, e) == Timed(p, true, busy, off || c == Off, on, energy)
  {
    SwitchedTwice(p, On, on, energy);
  }

  /** `OnDemandWithTimeoutPowerStrategy`: the stamps `last_active`, keyed by node id, of
      the last time each id was seen busy. */
  class OnDemandTimeout {
    const timeout: real
    var lastActive: map<int, real>

    constructor (timeout: real := 10.0)
      ensures this.timeout == timeout && lastActive == map[]
    {
      this.timeout := timeout;
      lastActive := map[];
    }

    /** The body of the loop for one node: stamp and turn on a busy node; turn off an idle
        one whose stamp is strictly older than the timeout, and delete its stamp. */
    method Visit(node: BaseNode, time: real) returns (c: Command)
      modifies this`lastActive, node`state, node`energyConsumed
      ensures (c, lastActive) == TimeoutStep(old(lastActive), node.nodeId, |node.processingQueue| > 0, time, timeout)
      ensures (node.state, node.energyConsumed) == Switched(node.profile, c, old(node.state), old(node.energyConsumed))
    {
      c := Keep;
      if |node.processingQueue| > 0 {
        lastActive := lastActive[node.nodeId := time];
        c := On;
        node.TurnOn();
      } else if node.nodeId in lastActive {
        if time - lastActive[node.nodeId] > timeout {
          c := Off;
          node.TurnOff();
          lastActive := lastActive - {node.nodeId};
        }
      }
    }

    /** Where the timeout loop stands after i positions: every listed node holds its
        timed outcome from its state and energy on entry (`init`). */
    ghost predicate Progress(nodes: seq<BaseNode>, cs: seq<Command>, init: map<BaseNode, (bool, real)>, i: nat)
      reads Members(nodes)
      requires i <= |nodes| == |cs|
    {
      forall n :: n in nodes ==>
        && n in init
        && (n.state, n.energyConsumed) ==
             Timed(n.profile, n in nodes[..i], |n.processingQueue| > 0, Hit(nodes, cs, n, Off, i), init[n].0, init[n].1)
    }

    /** One iteration of the timeout loop, at position i. */
    method Step(nodes: seq<BaseNode>, i: nat, time: real, ghost es: seq<(int, bool)>, ghost m: map<int, real>,
                ghost init: map<BaseNode, (bool, real)>)
      requires i < |nodes| == |es|
      requires es[i] == (nodes[i].nodeId, |nodes[i].processingQueue| > 0)
      requires lastActive == TimeoutPass(m, es[..i], time, timeout).1
      requires Progress(nodes, TimeoutPass(m, es, time, timeout).0, init, i)
      modifies this`lastActive, Members(nodes)`state, Members(nodes)`energyConsumed
      ensures lastActive == TimeoutPass(m, es[..i + 1], time, timeout).1
      ensures Progress(nodes, TimeoutPass(m, es, time, timeout).0, init, i + 1)
    {
      ghost var cs := TimeoutPass(m, es, time, timeout).0;
      var node := nodes[i];
      assert nodes[..i + 1] == nodes[..i] + [node];
      ghost var visited := node in nodes[..i];
      ghost var off := Hit(nodes, cs, node, Off, i);
      TimeoutPassAt(m, es, i, time, timeout);
      var c := Visit(node, time);
      assert c == cs[i];
      TimedNext(node.profile, visited, |node.processingQueue| > 0, off, init[node].0, init[node].1, c);
      forall n | n in nodes
        ensures (n.state, n.energyConsumed) ==
          Timed(n.profile, n in nodes[..i + 1], |n.processingQueue| > 0, Hit(nodes, cs, n, Off, i + 1), init[n].0, init[n].1)
      {
        HitNext(nodes, cs, n, Off, i);
        if n == node {
          assert Hit(nodes, cs, n, Off, i + 1) == (off || c == Off);
        }
      }
    }

    /** `apply_strategy(nodes, time)`: the stamps are those of the timeout loop; a busy
        node is turned on; an idle node is turned off if the loop turned it off at one of
        its positions, and is otherwise left as it was. */
    method Apply(nodes: seq<BaseNode>, time: real)
      modifies this`lastActive, Members(nodes)`state, Members(nodes)`energyConsumed
      ensures lastActive == TimeoutPass(old(lastActive), old(Entries(nodes)), time, timeout).1
      ensures var cs := TimeoutPass(old(lastActive), old(Entries(nodes)), time, timeout).0;
        forall n :: n in nodes ==>
          (n.state, n.energyConsumed) ==
            Timed(n.profile, true, |n.processingQueue| > 0, Hit(nodes, cs, n, Off, |nodes|), old(n.state), old(n.energyConsumed))
    {
      ghost var es := Entries(nodes);
      ghost var cs := TimeoutPass(lastActive, es, time, timeout).0;
      ghost var init := map n | n in nodes :: (n.state, n.energyConsumed);
      var i := 0;
      while i < |nodes|
        invariant 0 <= i <= |nodes|
        invariant lastActive == TimeoutPass(old(lastActive), es[..i], time, timeout).1
        invariant Progress(nodes, cs, init, i)
      {
        Step(nodes, i, time, es, old(lastActive), init);
        i := i + 1;
      }
      assert nodes[..i] == nodes;
      assert es[..i] == es;
    }
  }

  // ----- random subset -----

  /** The key of a node in the random strategy's active set: its class and its id. */
  function Key(n: BaseNode): (NodeKind, int) {
    (n.kind, n.nodeId)
  }

  /** `max(1, int(len(nodes) * epsilon))`; `int` truncates, which for a non-negative
      product is the floor. */
  function NumActive(count: nat, epsilon: real): int {
    var k := (count as real * epsilon).Floor;
    if k < 1 then 1 else k
  }

  /** For a non-empty list and epsilon in [0, 1], between one and all of the nodes are
      sampled, and at least the fraction epsilon of them (rounded down). */
  lemma NumActiveBounds(count: nat, epsilon: real)
    requires count > 0 && 0.0 <= epsilon <= 1.0
    ensures 1 <= NumActive(count, epsilon) <= count
    ensures NumActive(count, epsilon) as real <= count as real * epsilon || NumActive(count, epsilon) == 1
    ensures count as real * epsilon < NumActive(count, epsilon) as real + 1.0
  {
    assert count as real * epsilon <= count as real by {
      assert count as real * (1.0 - epsilon) >= 0.0 by { MulNonNegative(count as real, 1.0 - epsilon); }
    }
  }

  lemma MulNonNegative(a: real, b: real)
    requires a >= 0.0 && b >= 0.0
    ensures a * b >= 0.0
  {
  }

  /** The indices of a list of length n. */
  function Below(n: nat): (r: set<nat>)
    ensures forall i: nat :: i in r <==> i < n
  {
    if n == 0 then {} else Below(n - 1) + {n - 1}
  }

  lemma {:induction false} BelowCard(n: nat)
    ensures |Below(n)| == n
  {
    if n > 0 {
      BelowCard(n - 1);
    }
  }

  /** The keys of the nodes at the sampled indices. */
  function KeysOf(nodes: seq<BaseNode>, picked: set<nat>): set<(NodeKind, int)> {
    set i | i in picked && i < |nodes| :: Key(nodes[i])
  }

  /** `RandomPowerStrategy`: a random subset of the nodes, by key, is kept on; it is
      drawn again when empty, and, with `with_change`, once `change_interval` has passed
      since the last draw. No draw yet is a last change time of minus infinity (`None`). */
  class RandomPower {
    const epsilon: real
    const withChange: bool
    const changeInterval: real
    var activeNodes: set<(NodeKind, int)>
    var lastChangeTime: Option<real>
    var accumulatedTime: real

    predicate Valid() {
      0.0 <= epsilon <= 1.0
    }

    constructor (epsilon: real := 0.5, withChange: bool := true, changeInterval: real := 5.0)
      requires 0.0 <= epsilon <= 1.0
      ensures this.epsilon == epsilon && this.withChange == withChange && this.changeInterval == changeInterval
      ensures activeNodes == {} && lastChangeTime == None && accumulatedTime == 0.0
      ensures Valid()
    {
      this.epsilon := epsilon;
      this.withChange := withChange;
      this.changeInterval := changeInterval;
      activeNodes := {};
      lastChangeTime := None;
      accumulatedTime := 0.0;
    }

    /** `_select_active_nodes`: nothing for an empty list; otherwise `random.sample` of
        `NumActive` distinct indices, whose keys become the active set. */
    method SelectActive(nodes: seq<BaseNode>) returns (ghost picked: set<nat>)
      requires Valid()
      modifies this`activeNodes
      ensures nodes == [] ==> activeNodes == old(activeNodes)
      ensures nodes != [] ==>
        && |picked| == NumActive(|nodes|, epsilon)
        && picked <= Below(|nodes|)
        && activeNodes == KeysOf(nodes, picked)
    {
      picked := {};
      if nodes == [] {
        return;
      }
      var k := NumActive(|nodes|, epsilon);
      NumActiveBounds(|nodes|, epsilon);
      BelowCard(k);
      assert Below(k) <= Below(|nodes|);
      var sample: set<nat> :| |sample| == k && sample <= Below(|nodes|);
      activeNodes := set i | i in sample && i < |nodes| :: Key(nodes[i]);
      picked := sample;
    }

    /** Whether `apply_strategy` draws again: the active set is empty, or changes are on
        and at least `change_interval` has passed since the last draw. */
    predicate Reselects(active: set<(NodeKind, int)>, last: Option<real>, accumulated: real) {
      active == {} || (withChange && (last.None? || accumulated - last.value >= changeInterval))
    }

    /** `apply_strategy(nodes, time)`: the clock advances by `time`; a draw happens when
        `Reselects` holds and records the clock; then each listed node is turned on if its
        key is active and off otherwise. */
    method Apply(nodes: seq<BaseNode>, time: real) returns (ghost picked: set<nat>)
      requires Valid()
      modifies this`accumulatedTime, this`lastChangeTime, this`activeNodes
      modifies Members(nodes)`state, Members(nodes)`energyConsumed
      ensures accumulatedTime == old(accumulatedTime) + time
      ensures Reselects(old(activeNodes), old(lastChangeTime), accumulatedTime) ==>
        && lastChangeTime == Some(accumulatedTime)
        && (nodes == [] ==> activeNodes == old(activeNodes))
        && (nodes != [] ==>
              && |picked| == NumActive(|nodes|, epsilon) && picked <= Below(|nodes|)
              && activeNodes == KeysOf(nodes, picked))
      ensures !Reselects(old(activeNodes), old(lastChangeTime), accumulatedTime) ==>
        lastChangeTime == old(lastChangeTime) && activeNodes == old(activeNodes)
      ensures forall n :: n in nodes ==>
        (n.state, n.energyConsumed) ==
          Switched(n.profile, if Key(n) in activeNodes then On else Off, old(n.state), old(n.energyConsumed))
    {
      picked := {};
      accumulatedTime := accumulatedTime + time;
      if Reselects(activeNodes, lastChangeTime, accumulatedTime) {
        picked := SelectActive(nodes);
        lastChangeTime := Some(accumulatedTime);
      }
      label Drawn:
      var i := 0;
      while i < |nodes|
        invariant 0 <= i <= |nodes|
        invariant unchanged@Drawn(this)
        invariant forall n :: n in nodes ==>
          (n.state, n.energyConsumed) == if n in nodes[..i] then Switched(n.profile, if Key(n) in activeNodes then On else Off, old(n.state), old(n.energyConsumed))
          else (old(n.state), old(n.energyConsumed))
      {
        var node := nodes[i];
        var c := if Key(node) in activeNodes then On else Off;
        SwitchedTwice(node.profile, c, old(node.state), old(node.energyConsumed));
        Execute(node, c);
        assert nodes[..i + 1] == nodes[..i] + [node];
        i := i + 1;
      }
      assert nodes[..i] == nodes;
    }
  }

  /** The constructor's guard: epsilon outside [0, 1] raises ValueError. */
  method NewRandomPower(epsilon: real, withChange: bool, changeInterval: real) returns (r: Result<RandomPower>)
    ensures r.Err? <==> !(0.0 <= epsilon <= 1.0)
    ensures r.Err? ==> r.error == ValueError("Epsilon must be between 0 and 1")
    ensures r.Ok? ==>
      && fresh(r.value) && r.value.Valid()
      && r.value.epsilon == epsilon && r.value.withChange == withChange && r.value.changeInterval == changeInterval
      && r.value.activeNodes == {} && r.value.lastChangeTime == None && r.value.accumulatedTime == 0.0
  {
    if !(0.0 <= epsilon <= 1.0) {
      return Err(ValueError("Epsilon must be between 0 and 1"));
    }
    var strategy := new RandomPower(epsilon, withChange, changeInterval);
    r := Ok(strategy);
  }
}
