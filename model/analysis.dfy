/** The scoring half of analyse/energy_qos_analysis.py: reading a run's power strategy,
    assignment strategy and user count out of its CSV file name, the "P + A" strategy
    key, min-max normalisation, the success rate, the assignment score, the display
    names and the list of strategies present in both result sets. Loading the CSV files
    and plotting are left to the caller. */
module Analysis {
  import opened Common
  import opened Text

  /** What `load_data` makes of one file name: skipped for having fewer than five
      "_"-separated fields, rejected when the fifth field is not an integer (the
      exception is caught and the file passed over), or the three fields it keeps. */
  datatype RunFile = Skipped | Rejected(error: Error) | Parsed(power: string, assignment: string, userCount: int)

  function ParseFileName(file: string): (r: RunFile)
    ensures r.Skipped? <==> |Split(file, "_")| < 5
    ensures r.Rejected? ==> r.error.ValueError?
  {
    var parts := Split(file, "_");
    if |parts| < 5 then Skipped
    else match ParseInt(RemoveAll(parts[4], ".csv"))
      case Err(e) => Rejected(e)
      case Ok(n) => Parsed(parts[2], parts[3], n)
  }

  /** The name of a file the simulator writes: a directory and metric prefix in two
      fields, then the strategies and the user count. */
  function RunFileName(dirAndMetric: string, metricTail: string, power: string, assignment: string, userCount: int): string {
    Join([dirAndMetric, metricTail, power, assignment, IntString(userCount) + ".csv"], "_")
  }

  /** The file name gives back its strategies and user count, as long as none of the
      names holds an underscore. */
  lemma FileNameRoundTrip(dirAndMetric: string, metricTail: string, power: string, assignment: string, userCount: int)
    requires '_' !in dirAndMetric && '_' !in metricTail && '_' !in power && '_' !in assignment
    ensures ParseFileName(RunFileName(dirAndMetric, metricTail, power, assignment, userCount)) == Parsed(power, assignment, userCount)
  {
    var last := IntString(userCount) + ".csv";
    var parts := [dirAndMetric, metricTail, power, assignment, last];
    assert '_' !in last by {
      assert last[|last| - 4..] == ".csv";
    }
    JoinSplit(parts, "_");
    RemoveSuffix(IntString(userCount), ".csv");
    IntStringRoundTrip(userCount);
  }

  /** The combined strategy key, `f"{power} + {assignment}"`. */
  function StrategyKey(power: string, assignment: string): string {
    power + " + " + assignment
  }

  /** `power, assignment = key.split(" + ")`: unpacking anything but two fields raises
      ValueError. */
  function SplitKey(key: string): (r: Result<(string, string)>)
    ensures r.Err? <==> |Split(key, " + ")| != 2
    ensures r.Err? ==> r.error.ValueError?
  {
    var parts := Split(key, " + ");
    if |parts| > 2 then Err(ValueError("too many values to unpack (expected 2)"))
    else if |parts| < 2 then Err(ValueError("not enough values to unpack (expected 2, got 1)"))
    else Ok((parts[0], parts[1]))
  }

  /** A key splits back into the names it was made of when they hold no space, and a key
      that splits is the key of its two halves. */
  lemma KeyRoundTrip(power: string, assignment: string, key: string)
    ensures ' ' !in power && ' ' !in assignment ==> SplitKey(StrategyKey(power, assignment)) == Ok((power, assignment))
    ensures SplitKey(key).Ok? ==> StrategyKey(SplitKey(key).value.0, SplitKey(key).value.1) == key
  {
    if ' ' !in power && ' ' !in assignment {
      JoinSplit([power, assignment], " + ");
      assert Join([power, assignment], " + ") == StrategyKey(power, assignment);
    }
    SplitJoin(key, " + ");
    var parts := Split(key, " + ");
    if |parts| == 2 {
      assert Join(parts, " + ") == parts[0] + " + " + parts[1];
    }
  }

  /** `min(values)`. */
  function Least(values: seq<real>): (m: real)
    requires |values| > 0
    ensures m in values && forall x :: x in values ==> m <= x
  {
    if |values| == 1 then values[0] else assert values == [values[0]] + values[1..]; Min(values[0], Least(values[1..]))
  }

  /** `max(values)`. */
  function Greatest(values: seq<real>): (m: real)
    requires |values| > 0
    ensures m in values && forall x :: x in values ==> x <= m
  {
    if |values| == 1 then values[0] else assert values == [values[0]] + values[1..]; Max(values[0], Greatest(values[1..]))
  }

  /** `normalize_values(values)`: an empty list raises ValueError in `min`; equal values
      all become 1.0; otherwise each value becomes `(x - min) / (max - min)`. */
  function Normalize(values: seq<real>): (r: Result<seq<real>>)
    ensures r.Err? <==> |values| == 0
    ensures r.Err? ==> r.error.ValueError?
    ensures r.Ok? ==> |r.value| == |values|
  {
    if |values| == 0 then Err(ValueError("min() arg is an empty sequence"))
    else
      var lo, hi := Least(values), Greatest(values);
      if hi == lo then Ok(seq(|values|, _ => 1.0))
      else Ok(seq(|values|, i requires 0 <= i < |values| => Scaled(values[i], lo, hi)))
  }

  /** The place of x between lo and hi, `(x - lo) / (hi - lo)`. */
  function Scaled(x: real, lo: real, hi: real): real
    requires lo != hi
  {
    (x - lo) / (hi - lo)
  }

  lemma NormalizeAt(values: seq<real>, i: nat)
    requires i < |values|
    ensures Normalize(values).value[i]
      == if Least(values) == Greatest(values) then 1.0 else Scaled(values[i], Least(values), Greatest(values))
  {
  }

  /** Normalised values lie in [0, 1] and keep the order of the inputs; when the values
      differ the least maps to 0 and the greatest to 1. */
  lemma NormalizeBounds(values: seq<real>, i: nat, j: nat)
    requires i < |values| && j < |values|
    ensures 0.0 <= Normalize(values).value[i] <= 1.0
    ensures values[i] <= values[j] ==> Normalize(values).value[i] <= Normalize(values).value[j]
    ensures Least(values) < Greatest(values) && values[i] == Least(values) ==> Normalize(values).value[i] == 0.0
    ensures Least(values) < Greatest(values) && values[i] == Greatest(values) ==> Normalize(values).value[i] == 1.0
    ensures Least(values) == Greatest(values) ==> Normalize(values).value[i] == 1.0
  {
    var lo, hi := Least(values), Greatest(values);
    assert values[i] in values && values[j] in values;
    if lo < hi {
      Fraction(values[i] - lo, hi - lo);
      SelfQuotient(hi - lo);
      if values[i] <= values[j] {
        FractionMonotone(values[i] - lo, values[j] - lo, hi - lo);
      }
    }
  }

  /** The energy half of the score: 0.5 when all energies are equal, otherwise half of
      one minus the energy's place between the least and the greatest. */
  function EnergyComponent(energy: real, lo: real, hi: real): real {
    if hi == lo then 0.5 else 0.5 * (1.0 - Scaled(energy, lo, hi))
  }

  /** `calculate_assignment_score`: the energy component times the success rate as a
      fraction; an empty list of energies raises ValueError in `min`. The function's
      docstring and the note printed under the results table both describe a sum of the
      two halves, `0.5·(1 - ...) + 0.5·TS/100`; the score follows the code's product,
      since that is what the ranking is computed from. */
  function AssignmentScore(energy: real, successRate: real, allEnergies: seq<real>): (r: Result<real>)
    ensures r.Err? <==> |allEnergies| == 0
  {
    if |allEnergies| == 0 then Err(ValueError("min() arg is an empty sequence"))
    else Ok(EnergyComponent(energy, Least(allEnergies), Greatest(allEnergies)) * (successRate / 100.0))
  }

  lemma EnergyComponentBounds(energy: real, energy': real, lo: real, hi: real)
    requires lo <= energy <= hi && lo <= energy' <= hi
    ensures 0.0 <= EnergyComponent(energy, lo, hi) <= 0.5
    ensures energy <= energy' ==> EnergyComponent(energy', lo, hi) <= EnergyComponent(energy, lo, hi)
    ensures EnergyComponent(lo, lo, hi) == 0.5
    ensures lo < hi ==> EnergyComponent(hi, lo, hi) == 0.0
  {
    if lo < hi {
      Fraction(energy - lo, hi - lo);
      SelfQuotient(hi - lo);
      if energy <= energy' {
        FractionMonotone(energy - lo, energy' - lo, hi - lo);
      }
    }
  }

  lemma HalfScaled(c: real, s: real)
    requires 0.0 <= c <= 0.5 && 0.0 <= s <= 100.0
    ensures 0.0 <= c * (s / 100.0) <= 0.5
  {
    assert c * (s / 100.0) <= 0.5 * (s / 100.0);
  }

  lemma ScaledMonotone(c: real, c': real, s: real)
    requires c' <= c && 0.0 <= s
    ensures c' * (s / 100.0) <= c * (s / 100.0)
  {
  }

  /** For an energy among the compared ones and a success rate in [0, 100] the score lies
      in [0, 0.5], and less energy never scores less. */
  lemma AssignmentScoreBounds(energy: real, energy': real, successRate: real, allEnergies: seq<real>)
    requires energy in allEnergies && energy' in allEnergies && 0.0 <= successRate <= 100.0
    ensures 0.0 <= AssignmentScore(energy, successRate, allEnergies).value <= 0.5
    ensures energy <= energy' ==> AssignmentScore(energy', successRate, allEnergies).value <= AssignmentScore(energy, successRate, allEnergies).value
  {
    var lo, hi := Least(allEnergies), Greatest(allEnergies);
    EnergyComponentBounds(energy, energy', lo, hi);
    var c, c' := EnergyComponent(energy, lo, hi), EnergyComponent(energy', lo, hi);
    HalfScaled(c, successRate);
    if energy <= energy' {
      ScaledMonotone(c, c', successRate);
    }
  }

  /** The least energy scores half the success fraction and, when energies differ, the
      greatest scores 0. */
  lemma AssignmentScoreExtremes(successRate: real, allEnergies: seq<real>)
    requires |allEnergies| > 0
    ensures AssignmentScore(Least(allEnergies), successRate, allEnergies).value == successRate / 200.0
    ensures Least(allEnergies) < Greatest(allEnergies) ==> AssignmentScore(Greatest(allEnergies), successRate, allEnergies).value == 0.0
  {
    LeastComponent(allEnergies);
    HalfComponentScore(successRate, allEnergies);
    if Least(allEnergies) < Greatest(allEnergies) {
      GreatestComponent(allEnergies);
      ZeroComponentScore(successRate, allEnergies);
    }
  }

  lemma LeastComponent(allEnergies: seq<real>)
    requires |allEnergies| > 0
    ensures EnergyComponent(Least(allEnergies), Least(allEnergies), Greatest(allEnergies)) == 0.5
  {
    BottomComponent(Least(allEnergies), Greatest(allEnergies));
  }

  lemma GreatestComponent(allEnergies: seq<real>)
    requires |allEnergies| > 0 && Least(allEnergies) < Greatest(allEnergies)
    ensures EnergyComponent(Greatest(allEnergies), Least(allEnergies), Greatest(allEnergies)) == 0.0
  {
    TopComponent(Least(allEnergies), Greatest(allEnergies));
  }

  lemma BottomComponent(lo: real, hi: real)
    ensures EnergyComponent(lo, lo, hi) == 0.5
  {
    if lo != hi {
      assert Scaled(lo, lo, hi) == 0.0;
    }
  }

  lemma TopComponent(lo: real, hi: real)
    requires lo < hi
    ensures EnergyComponent(hi, lo, hi) == 0.0
  {
    SelfQuotient(hi - lo);
  }

  lemma HalfComponentScore(successRate: real, allEnergies: seq<real>)
    requires |allEnergies| > 0
    requires EnergyComponent(Least(allEnergies), Least(allEnergies), Greatest(allEnergies)) == 0.5
    ensures AssignmentScore(Least(allEnergies), successRate, allEnergies).value == successRate / 200.0
  {
  }

  lemma ZeroComponentScore(successRate: real, allEnergies: seq<real>)
    requires |allEnergies| > 0
    requires EnergyComponent(Greatest(allEnergies), Least(allEnergies), Greatest(allEnergies)) == 0.0
    ensures AssignmentScore(Greatest(allEnergies), successRate, allEnergies).value == 0.0
  {
  }

  /** When energies differ, the energy component of an energy is half the complement of
      its normalised value, so the score of the least energy used is the greatest. */
  lemma ComponentFromNormalized(allEnergies: seq<real>, i: nat)
    requires i < |allEnergies| && Least(allEnergies) < Greatest(allEnergies)
    ensures EnergyComponent(allEnergies[i], Least(allEnergies), Greatest(allEnergies))
      == 0.5 * (1.0 - Normalize(allEnergies).value[i])
  {
    NormalizeAt(allEnergies, i);
  }

  const Completed: string := "RequestStatus.COMPLETED"
  const Failed: string := "RequestStatus.FAILED"

  /** The success rate of a run with the given request statuses: completed over completed
      plus failed, in percent, and 0 when no request reached either state. */
  function SuccessRate(statuses: seq<string>): real {
    var completed, failed := multiset(statuses)[Completed], multiset(statuses)[Failed];
    var total := completed + failed;
    if total > 0 then completed as real / total as real * 100.0 else 0.0
  }

  /** The rate lies in [0, 100]; it is 100 exactly when some request completed and none
      failed, and 0 exactly when none completed. */
  lemma SuccessRateBounds(statuses: seq<string>)
    ensures 0.0 <= SuccessRate(statuses) <= 100.0
    ensures SuccessRate(statuses) == 100.0 <==> Completed in statuses && Failed !in statuses
    ensures SuccessRate(statuses) == 0.0 <==> Completed !in statuses
  {
    var completed, failed := multiset(statuses)[Completed], multiset(statuses)[Failed];
    var total := completed + failed;
    assert Completed in statuses <==> completed > 0;
    assert Failed in statuses <==> failed > 0;
    if total > 0 {
      var q := completed as real / total as real;
      Fraction(completed as real, total as real);
      if failed > 0 {
        assert q * total as real == completed as real;
        assert q < 1.0;
      }
      if completed > 0 {
        assert q * total as real == completed as real;
        assert q > 0.0;
      }
    }
  }

  /** `get_strategy_display_names()`. */
  const DisplayNames: map<string, string> := map[
    "TimeGreedyAssignment" := "Time Greedy",
    "ClosestNodeAssignment" := "Closest Node",
    "HAPSOnlyAssignment" := "HAPS Only",
    "GA" := "Genetic Algorithm",
    "PSO" := "Particle Swarm",
    "DE" := "Differential Evolution",
    "QLearningAssignment" := "Q-Learning",
    "OnDemand" := "On Demand",
    "AllOnStrategy" := "All On"
  ]

  /** `get_display_name(name)`: the label of a known strategy, the name itself otherwise. */
  function DisplayName(name: string): string {
    if name in DisplayNames then DisplayNames[name] else name
  }

  /** Names without a label pass through unchanged, different known names get different
      labels, and no label is itself a key, so naming twice changes nothing. */
  lemma DisplayNameFacts(name: string, other: string)
    ensures name !in DisplayNames ==> DisplayName(name) == name
    ensures name in DisplayNames && other in DisplayNames && name != other ==> DisplayName(name) != DisplayName(other)
    ensures DisplayName(DisplayName(name)) == DisplayName(name)
  {
    LabelsAreNotNames();
    if name in DisplayNames && other in DisplayNames && name != other {
      LabelsDistinct(name, other);
    }
  }

  lemma LabelsAreNotNames()
    ensures forall k :: k in DisplayNames ==> DisplayNames[k] !in DisplayNames
  {
  }

  lemma LabelsDistinct(name: string, other: string)
    requires name in DisplayNames && other in DisplayNames && name != other
    ensures DisplayNames[name] != DisplayNames[other]
  {
  }

  /** Python's `<` on strings: code point by code point, a proper prefix first. */
  predicate Less(a: string, b: string) {
    if |a| == 0 then |b| > 0
    else |b| > 0 && (a[0] < b[0] || (a[0] == b[0] && Less(a[1..], b[1..])))
  }

  lemma {:induction false} LessIrreflexive(a: string)
    ensures !Less(a, a)
  {
    if |a| > 0 {
      LessIrreflexive(a[1..]);
    }
  }

  lemma {:induction false} LessTransitive(a: string, b: string, c: string)
    requires Less(a, b) && Less(b, c)
    ensures Less(a, c)
  {
    if |a| > 0 && a[0] == b[0] && b[0] == c[0] {
      LessTransitive(a[1..], b[1..], c[1..]);
    }
  }

  lemma {:induction false} LessTotal(a: string, b: string)
    ensures a == b || Less(a, b) || Less(b, a)
  {
    if |a| > 0 && |b| > 0 && a[0] == b[0] {
      LessTotal(a[1..], b[1..]);
      if a[1..] == b[1..] {
        assert a == [a[0]] + a[1..] && b == [b[0]] + b[1..];
      }
    }
  }

  /** Strictly increasing, hence without repeats. */
  predicate StrictlySorted(r: seq<string>) {
    forall i, j :: 0 <= i < j < |r| ==> Less(r[i], r[j])
  }

  /** The least string of a non-empty set. */
  method LeastOf(s: set<string>) returns (m: string)
    requires s != {}
    ensures m in s && forall x :: x in s && x != m ==> Less(m, x)
  {
    m :| m in s;
    var rest := s - {m};
    while rest != {}
      invariant m in s && rest <= s && m !in rest
      invariant forall x :: x in s && x !in rest && x != m ==> Less(m, x)
      decreases |rest|
    {
      var x :| x in rest;
      LessTotal(x, m);
      if Less(x, m) {
        forall y | y in s && y !in rest && y != x
          ensures Less(x, y)
        {
          if y != m {
            LessTransitive(x, m, y);
          }
        }
        m := x;
      }
      rest := rest - {x};
    }
  }

  /** `sorted(s)` for a set of strings: its members in increasing order. */
  method Sorted(s: set<string>) returns (r: seq<string>)
    ensures StrictlySorted(r) && |r| == |s|
    ensures forall x :: x in r <==> x in s
  {
    r := [];
    var rest := s;
    while rest != {}
      invariant rest <= s && |r| + |rest| == |s|
      invariant forall x :: x in s <==> x in r || x in rest
      invariant forall i, x :: 0 <= i < |r| && x in rest ==> Less(r[i], x)
      invariant StrictlySorted(r)
      decreases |rest|
    {
      var m := LeastOf(rest);
      r := r + [m];
      rest := rest - {m};
    }
  }

  /** The power halves of the keys that split. */
  function Powers(keys: set<string>): set<string> {
    set k | k in keys && SplitKey(k).Ok? :: SplitKey(k).value.0
  }

  /** The assignment halves of the keys that split. */
  function Assignments(keys: set<string>): set<string> {
    set k | k in keys && SplitKey(k).Ok? :: SplitKey(k).value.1
  }

  lemma HalvesAdd(done: set<string>, key: string)
    requires SplitKey(key).Ok?
    ensures Powers(done + {key}) == Powers(done) + {SplitKey(key).value.0}
    ensures Assignments(done + {key}) == Assignments(done) + {SplitKey(key).value.1}
  {
  }

  /** The loop of `get_available_strategies`: every key is split in turn, and the first
      key that does not split in two raises ValueError. */
  method SplitKeys(keys: set<string>) returns (r: Result<(set<string>, set<string>)>)
    ensures r.Err? <==> exists k :: k in keys && SplitKey(k).Err?
    ensures r.Err? ==> r.error.ValueError?
    ensures r.Ok? ==> r.value == (Powers(keys), Assignments(keys))
  {
    var powers, assignments := {}, {};
    var rest := keys;
    ghost var done := {};
    while rest != {}
      invariant rest <= keys && done == keys - rest
      invariant forall k :: k in done ==> SplitKey(k).Ok?
      invariant powers == Powers(done) && assignments == Assignments(done)
      decreases |rest|
    {
      var key :| key in rest;
      var split := SplitKey(key);
      if split.Err? {
        return Err(split.error);
      }
      HalvesAdd(done, key);
      powers := powers + {split.value.0};
      assignments := assignments + {split.value.1};
      rest := rest - {key};
      done := done + {key};
    }
    assert done == keys;
    r := Ok((powers, assignments));
  }

  /** `get_available_strategies(energy_dict, request_dict)` on the two key sets: every key
      present in both is split, a key that does not split in two raises ValueError, and
      the power and assignment halves come back sorted and without repeats. */
  method AvailableStrategies(energyKeys: set<string>, requestKeys: set<string>) returns (r: Result<(seq<string>, seq<string>)>)
    ensures r.Err? <==> exists k :: k in energyKeys && k in requestKeys && SplitKey(k).Err?
    ensures r.Err? ==> r.error.ValueError?
    ensures r.Ok? ==> StrictlySorted(r.value.0) && forall p :: p in r.value.0 <==> p in Powers(energyKeys * requestKeys)
    ensures r.Ok? ==> StrictlySorted(r.value.1) && forall a :: a in r.value.1 <==> a in Assignments(energyKeys * requestKeys)
  {
    var halves := SplitKeys(energyKeys * requestKeys);
    if halves.Err? {
      return Err(halves.error);
    }
    var sortedPowers := Sorted(halves.value.0);
    var sortedAssignments := Sorted(halves.value.1);
    r := Ok((sortedPowers, sortedAssignments));
  }

  /** A key present in both result sets and built from names without spaces lists both
      of its names. */
  lemma BuiltKeyListed(keys: set<string>, power: string, assignment: string)
    requires StrategyKey(power, assignment) in keys && ' ' !in power && ' ' !in assignment
    ensures power in Powers(keys) && assignment in Assignments(keys)
  {
    KeyRoundTrip(power, assignment, "");
  }
}
