/** The reward shaping and exploration schedule of
    algorithms/assignment/qlearning_trainer.py. The trainer keeps the largest and least
    episode energy seen so far (starting at -inf and +inf, here `None`); an episode with
    a QoS score above 0.8 first widens those bounds to its energy and is then rewarded by
    where its energy falls between them, while any other episode is penalised by its QoS
    shortfall alone. Running simulations is left to the caller. */
module Trainer {
  import opened Common

  /** The largest energy after seeing e (`None` is -inf). */
  function Raised(hi: Option<real>, e: real): (r: real)
    ensures r >= e && (hi.Some? ==> r >= hi.value)
    ensures r == e || (hi.Some? && r == hi.value)
  {
    if hi.None? || e > hi.value then e else hi.value
  }

  /** The least energy after seeing e (`None` is +inf). */
  function Lowered(lo: Option<real>, e: real): (r: real)
    ensures r <= e && (lo.Some? ==> r <= lo.value)
    ensures r == e || (lo.Some? && r == lo.value)
  {
    if lo.None? || e < lo.value then e else lo.value
  }

  /** The reward of an episode with QoS score above 0.8, within the energy bounds
      [lo, hi]: `(0.5 - (e - lo) / (hi - lo)) * qos * 10`; equal bounds divide by zero. */
  function ShapedReward(qos: real, e: real, lo: real, hi: real): Result<real> {
    if hi == lo then Err(ZeroDivisionError)
    else Ok((0.5 - (e - lo) / (hi - lo)) * qos * 10.0)
  }

  lemma ScaleBounds(s: real, q: real)
    requires 0.0 <= s <= 1.0 && 0.0 <= q
    ensures -5.0 * q <= (0.5 - s) * q * 10.0 <= 5.0 * q
  {
    assert (0.5 - s) * q * 10.0 == 5.0 * q - 10.0 * (s * q);
    assert 0.0 <= s * q <= q;
  }

  /** Within the bounds the reward lies in [-5 qos, 5 qos]: the least energy seen earns
      5 qos, the largest -5 qos, and less energy never earns less. */
  lemma ShapedRewardBounds(qos: real, e: real, e': real, lo: real, hi: real)
    requires lo <= e <= hi && lo <= e' <= hi && lo < hi && 0.0 <= qos
    ensures ShapedReward(qos, e, lo, hi).Ok?
    ensures -5.0 * qos <= ShapedReward(qos, e, lo, hi).value <= 5.0 * qos
    ensures ShapedReward(qos, lo, lo, hi).value == 5.0 * qos
    ensures ShapedReward(qos, hi, lo, hi).value == -5.0 * qos
    ensures e <= e' ==> ShapedReward(qos, e', lo, hi).value <= ShapedReward(qos, e, lo, hi).value
  {
    var s, s' := (e - lo) / (hi - lo), (e' - lo) / (hi - lo);
    Fraction(e - lo, hi - lo);
    ScaleBounds(s, qos);
    SelfQuotient(hi - lo);
    if e <= e' {
      FractionMonotone(e - lo, e' - lo, hi - lo);
      assert (0.5 - s') * qos <= (0.5 - s) * qos;
    }
  }

  /** One step of the exploration schedule: `max(epsilon_end, epsilon * epsilon_decay)`. */
  function Decay(epsilon: real, floor: real, rate: real): (r: real)
    ensures r >= floor
    ensures r == floor || r == epsilon * rate
  {
    if floor >= epsilon * rate then floor else epsilon * rate
  }

  /** The exploration rate after k episodes. */
  function Schedule(start: real, floor: real, rate: real, k: nat): real {
    if k == 0 then start else Decay(Schedule(start, floor, rate, k - 1), floor, rate)
  }

  /** After the first episode the rate never drops below the floor; with a rate in [0, 1]
      and a start above the floor it never increases either. */
  lemma {:induction false} ScheduleFacts(start: real, floor: real, rate: real, k: nat)
    requires 0.0 <= rate <= 1.0 && 0.0 <= floor <= start
    ensures floor <= Schedule(start, floor, rate, k) <= start
    ensures Schedule(start, floor, rate, k + 1) <= Schedule(start, floor, rate, k)
  {
    if k > 0 {
      ScheduleFacts(start, floor, rate, k - 1);
      DecayBelow(Schedule(start, floor, rate, k - 1), floor, rate);
    }
    DecayBelow(Schedule(start, floor, rate, k), floor, rate);
  }

  lemma DecayBelow(epsilon: real, floor: real, rate: real)
    requires 0.0 <= rate <= 1.0 && 0.0 <= floor <= epsilon
    ensures floor <= Decay(epsilon, floor, rate) <= epsilon
  {
    assert epsilon * rate <= epsilon;
  }

  /** `QLearningTrainer` without its simulation: the schedule parameters and the energy
      bounds. */
  class QLearningTrainer {
    const episodes: int
    const epsilonStart: real
    const epsilonEnd: real
    const epsilonDecay: real
    var maxEnergy: Option<real>
    var minEnergy: Option<real>

    constructor (episodes: int := 1000, epsilonStart: real := 1.0, epsilonEnd: real := 0.1, epsilonDecay: real := 0.98)
      ensures this.episodes == episodes && this.epsilonStart == epsilonStart
      ensures this.epsilonEnd == epsilonEnd && this.epsilonDecay == epsilonDecay
      ensures maxEnergy.None? && minEnergy.None?
    {
      this.episodes, this.epsilonStart, this.epsilonEnd, this.epsilonDecay := episodes, epsilonStart, epsilonEnd, epsilonDecay;
      maxEnergy, minEnergy := None, None;
    }

    /** `episode_reward(qos_score, energy_consumed)`. Above a 0.8 score the bounds are
        widened first, so they hold the energy and stay widened even when the reward then
        divides by zero (bounds that meet); otherwise the reward is `-(1 - qos) * 10` and
        the bounds are kept. */
    method EpisodeReward(qos: real, energy: real) returns (r: Result<real>)
      modifies this`maxEnergy, this`minEnergy
      ensures qos > 0.8 ==>
        && maxEnergy == Some(Raised(old(maxEnergy), energy)) && minEnergy == Some(Lowered(old(minEnergy), energy))
        && minEnergy.value <= energy <= maxEnergy.value
        && r == ShapedReward(qos, energy, minEnergy.value, maxEnergy.value)
      ensures qos <= 0.8 ==> r == Ok(-(1.0 - qos) * 10.0) && maxEnergy == old(maxEnergy) && minEnergy == old(minEnergy)
    {
      if qos > 0.8 {
        if maxEnergy.None? || energy > maxEnergy.value {
          maxEnergy := Some(energy);
        }
        if minEnergy.None? || energy < minEnergy.value {
          minEnergy := Some(energy);
        }
        var lo, hi := minEnergy.value, maxEnergy.value;
        if hi - lo == 0.0 {
          return Err(ZeroDivisionError);
        }
        var energyScore := (energy - lo) / (hi - lo);
        return Ok((0.5 - energyScore) * qos * 10.0);
      }
      r := Ok(-(1.0 - qos) * 10.0);
    }

    /** The exploration rates of `train`'s episodes, in order: each episode uses the rate
        left by the one before, starting from `epsilon_start`. */
    method EpsilonSchedule() returns (rates: seq<real>)
      ensures |rates| == if episodes > 0 then episodes else 0
      ensures forall k :: 0 <= k < |rates| ==> rates[k] == Schedule(epsilonStart, epsilonEnd, epsilonDecay, k)
      ensures forall k :: 0 < k < |rates| ==> rates[k] >= epsilonEnd
    {
      rates := [];
      var epsilon := epsilonStart;
      var episode := 0;
      while episode < episodes
        invariant 0 <= episode <= (if episodes > 0 then episodes else 0) && |rates| == episode
        invariant epsilon == Schedule(epsilonStart, epsilonEnd, epsilonDecay, episode)
        invariant forall k :: 0 <= k < episode ==> rates[k] == Schedule(epsilonStart, epsilonEnd, epsilonDecay, k)
        invariant forall k :: 0 < k < episode ==> rates[k] >= epsilonEnd
      {
        rates := rates + [epsilon];
        epsilon := Decay(epsilon, epsilonEnd, epsilonDecay);
        episode := episode + 1;
      }
    }
  }

  /** A fresh trainer's first rewarded episode meets bounds that are both its own energy,
      so the reward divides by zero; `train` avoids it by widening the bounds over warm-up
      runs first. */
  lemma FirstShapedRewardFails(qos: real, e: real)
    ensures ShapedReward(qos, e, Lowered(None, e), Raised(None, e)) == Err(ZeroDivisionError)
  {
  }
}
