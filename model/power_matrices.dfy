/** The power-state plans of algorithms/power_strategy.py: for `num_devices` devices and
    `num_steps` time steps, a grid whose entry (d, t) says whether device d is on at step
    t. Each strategy returns a new numpy array, so the plans are values here. Random
    draws are parameters: uniform draws in [0, 1) for the random plan, the initial bits
    for the static one. */
module PowerMatrices {
  import opened Common

  /** The strategies and the state they keep. */
  datatype PowerStateStrategy = AllOnPlan | RandomPlan(probability: real) | StaticRandomPlan

  /** A plan of the requested shape whose entries are all 0 or 1. */
  predicate IsPlan(m: seq<seq<int>>, devices: nat, steps: nat) {
    && |m| == devices
    && forall d :: 0 <= d < devices ==> |m[d]| == steps && forall t :: 0 <= t < steps ==> m[d][t] == 0 || m[d][t] == 1
  }

  /** A plan in which each device keeps one state for the whole horizon. */
  predicate Static(m: seq<seq<int>>) {
    forall d, t :: 0 <= d < |m| && 0 <= t < |m[d]| ==> m[d][t] == m[d][0]
  }

  /** `AllOnStrategy.generate_power_matrix`: `np.ones((num_devices, num_steps))`. */
  function AllOn(devices: nat, steps: nat): (m: seq<seq<int>>)
    ensures IsPlan(m, devices, steps) && Static(m)
    ensures forall d, t :: 0 <= d < devices && 0 <= t < steps ==> m[d][t] == 1
  {
    seq(devices, _ => seq(steps, _ => 1))
  }

  /** `RandomStrategy.generate_power_matrix` with uniform draws `u`: `np.random.choice([0, 1],
      p=[1 - p, p])` picks 1 exactly when the draw is not below 1 - p; a probability
      outside [0, 1] makes one of the two weights negative and raises ValueError. */
  function RandomPlanOf(probability: real, devices: nat, steps: nat, u: seq<seq<real>>): (r: Result<seq<seq<int>>>)
    requires |u| == devices && forall d :: 0 <= d < devices ==> |u[d]| == steps
    ensures r.Err? <==> !(0.0 <= probability <= 1.0)
    ensures r.Err? ==> r.error.ValueError?
    ensures r.Ok? ==> IsPlan(r.value, devices, steps)
    ensures r.Ok? ==> forall d, t :: 0 <= d < devices && 0 <= t < steps ==> (r.value[d][t] == 1 <==> u[d][t] >= 1.0 - probability)
  {
    if !(0.0 <= probability <= 1.0) then Err(ValueError("probabilities are not non-negative"))
    else Ok(seq(devices, d requires 0 <= d < devices => seq(steps, t requires 0 <= t < steps => if u[d][t] < 1.0 - probability then 0 else 1)))
  }

  /** The random plan at the extremes: probability 1 is the all-on plan and probability 0
      switches everything off, for any draws in [0, 1). */
  lemma RandomPlanExtremes(devices: nat, steps: nat, u: seq<seq<real>>)
    requires |u| == devices && forall d :: 0 <= d < devices ==> |u[d]| == steps
    requires forall d, t :: 0 <= d < devices && 0 <= t < steps ==> 0.0 <= u[d][t] < 1.0
    ensures RandomPlanOf(1.0, devices, steps, u) == Ok(AllOn(devices, steps))
    ensures forall d, t :: 0 <= d < devices && 0 <= t < steps ==> RandomPlanOf(0.0, devices, steps, u).value[d][t] == 0
  {
    var m, ones := RandomPlanOf(1.0, devices, steps, u).value, AllOn(devices, steps);
    forall d | 0 <= d < devices
      ensures m[d] == ones[d]
    {
      assert |m[d]| == |ones[d]| == steps;
      assert forall t :: 0 <= t < steps ==> m[d][t] == 1 == ones[d][t];
    }
    assert m == ones;
  }

  /** `StaticRandomStrategy.generate_power_matrix` with `initial` the drawn bits, one per
      device: each row repeats its device's bit over the horizon. */
  function StaticPlan(initial: seq<int>, steps: nat): (m: seq<seq<int>>)
    requires forall d :: 0 <= d < |initial| ==> initial[d] == 0 || initial[d] == 1
    ensures IsPlan(m, |initial|, steps)
    ensures forall d, t :: 0 <= d < |initial| && 0 <= t < steps ==> m[d][t] == initial[d]
  {
    seq(|initial|, d requires 0 <= d < |initial| => seq(steps, _ => initial[d]))
  }

  /** A static plan keeps every device in one state; with every bit set it is the all-on
      plan. */
  lemma StaticPlanIsStatic(initial: seq<int>, steps: nat)
    requires forall d :: 0 <= d < |initial| ==> initial[d] == 0 || initial[d] == 1
    ensures Static(StaticPlan(initial, steps))
    ensures (forall d :: 0 <= d < |initial| ==> initial[d] == 1) ==> StaticPlan(initial, steps) == AllOn(|initial|, steps)
  {
    if forall d :: 0 <= d < |initial| ==> initial[d] == 1 {
      assert forall d :: 0 <= d < |initial| ==> StaticPlan(initial, steps)[d] == AllOn(|initial|, steps)[d];
    }
  }

  /** `get_name()`: the two overrides, and the class name otherwise; `show` is the float
      formatting. */
  function Name(s: PowerStateStrategy, show: real -> string): (r: string)
    ensures s.StaticRandomPlan? ==> r == "StaticRandomStrategy"
  {
    match s
    case AllOnPlan => "All On Strategy"
    case RandomPlan(p) => "Random Strategy (p=" + show(p) + ")"
    case StaticRandomPlan => "StaticRandomStrategy"
  }

  /** Strategies of different kinds have different names. */
  lemma NamesIdentifyKind(s: PowerStateStrategy, s': PowerStateStrategy, show: real -> string)
    requires Name(s, show) == Name(s', show)
    ensures s.AllOnPlan? == s'.AllOnPlan? && s.RandomPlan? == s'.RandomPlan?
  {
    var n := Name(s, show);
    assert n[0] == 'A' <==> s.AllOnPlan?;
    assert n[0] == 'R' <==> s.RandomPlan?;
    assert Name(s', show)[0] == 'A' <==> s'.AllOnPlan?;
    assert Name(s', show)[0] == 'R' <==> s'.RandomPlan?;
  }
}
