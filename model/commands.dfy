/** `generate_command` of scripts/run_simulations.py: the shell command that runs one
    simulation for a power strategy, an assignment strategy and a user count. Starting
    the processes and collecting their results are left out. */
module Commands {
  import opened Text

  /** The assignment strategies that are optimisers and take search parameters. */
  const Optimisers: seq<string> := ["GA", "PSO", "DE"]

  /** The path of the Q-table trained for a user count. */
  function QTablePath(userCount: int): string {
    "trained_models/qtable_users_" + IntString(userCount) + ".npy"
  }

  /** The command parts before they are joined: five base parts, then the search
      parameters of an optimiser, then the Q-table of the Q-learning strategy. */
  function CommandParts(power: string, strategy: string, userCount: int): (r: seq<string>)
    ensures |r| == 5 + (if strategy in Optimisers then 2 else 0) + (if strategy == "QLearning" then 1 else 0)
  {
    var base := [
      "python -m optimisation_ntn.main",
      "--power " + power,
      "--strategy " + strategy,
      "--user_count " + IntString(userCount),
      "--hide_output"
    ];
    var tuned := if strategy in Optimisers then base + ["--generations 5", "--population 30"] else base;
    if strategy == "QLearning" then tuned + ["--qtable_path " + QTablePath(userCount)] else tuned
  }

  /** `generate_command(params)`: the parts joined by single spaces. */
  function GenerateCommand(power: string, strategy: string, userCount: int): string {
    Join(CommandParts(power, strategy, userCount), " ")
  }

  /** The arguments the shell sees, grouped by the part they come from. */
  function ArgumentGroups(power: string, strategy: string, userCount: int): seq<seq<string>> {
    BaseGroups(power, strategy, userCount) + ExtraGroups(strategy, userCount)
  }

  function BaseGroups(power: string, strategy: string, userCount: int): seq<seq<string>> {
    [["python", "-m", "optimisation_ntn.main"], ["--power", power], ["--strategy", strategy], ["--user_count", IntString(userCount)], ["--hide_output"]]
  }

  function ExtraGroups(strategy: string, userCount: int): seq<seq<string>> {
    (if strategy in Optimisers then [["--generations", "5"], ["--population", "30"]] else [])
    + (if strategy == "QLearning" then [["--qtable_path", QTablePath(userCount)]] else [])
  }

  lemma JoinPair(a: string, b: string)
    ensures Join([a, b], " ") == a + " " + b
  {
    assert [a, b][1..] == [b];
  }

  lemma JoinHead()
    ensures Join(["python", "-m", "optimisation_ntn.main"], " ") == "python -m optimisation_ntn.main"
  {
    assert ["python", "-m", "optimisation_ntn.main"][1..] == ["-m", "optimisation_ntn.main"];
    JoinPair("-m", "optimisation_ntn.main");
    HeadLiteral();
  }

  lemma HeadLiteral()
    ensures "python" + " " + ("-m" + " " + "optimisation_ntn.main") == "python -m optimisation_ntn.main"
  {
  }

  /** Each group of arguments is non-empty and joins into the command part it comes from. */
  lemma GroupsMakeParts(power: string, strategy: string, userCount: int)
    ensures forall i :: 0 <= i < |ArgumentGroups(power, strategy, userCount)| ==> |ArgumentGroups(power, strategy, userCount)[i]| >= 1
    ensures JoinEach(ArgumentGroups(power, strategy, userCount), " ") == CommandParts(power, strategy, userCount)
  {
    var base, extra := BaseGroups(power, strategy, userCount), ExtraGroups(strategy, userCount);
    BasePartsJoin(power, strategy, userCount);
    ExtraPartsJoin(strategy, userCount);
    assert JoinEach(base + extra, " ") == JoinEach(base, " ") + JoinEach(extra, " ");
  }

  function BaseParts(power: string, strategy: string, userCount: int): seq<string> {
    ["python -m optimisation_ntn.main", "--power " + power, "--strategy " + strategy, "--user_count " + IntString(userCount), "--hide_output"]
  }

  function ExtraParts(strategy: string, userCount: int): seq<string> {
    (if strategy in Optimisers then ["--generations 5", "--population 30"] else [])
    + (if strategy == "QLearning" then ["--qtable_path " + QTablePath(userCount)] else [])
  }

  lemma BasePartsJoin(power: string, strategy: string, userCount: int)
    ensures JoinEach(BaseGroups(power, strategy, userCount), " ") == BaseParts(power, strategy, userCount)
    ensures CommandParts(power, strategy, userCount) == BaseParts(power, strategy, userCount) + ExtraParts(strategy, userCount)
  {
    var n := IntString(userCount);
    var parts, bp := JoinEach(BaseGroups(power, strategy, userCount), " "), BaseParts(power, strategy, userCount);
    JoinHead();
    JoinPair("--power", power);
    JoinPair("--strategy", strategy);
    JoinPair("--user_count", n);
    assert Join(["--hide_output"], " ") == "--hide_output";
    assert parts[0] == bp[0] && parts[1] == bp[1] && parts[2] == bp[2] && parts[3] == bp[3] && parts[4] == bp[4];
  }

  lemma ExtraPartsJoin(strategy: string, userCount: int)
    ensures JoinEach(ExtraGroups(strategy, userCount), " ") == ExtraParts(strategy, userCount)
  {
    var extra, parts := ExtraGroups(strategy, userCount), JoinEach(ExtraGroups(strategy, userCount), " ");
    if strategy in Optimisers {
      JoinPair("--generations", "5");
      JoinPair("--population", "30");
      assert extra == [["--generations", "5"], ["--population", "30"]];
      assert parts[0] == "--generations 5" && parts[1] == "--population 30";
    } else if strategy == "QLearning" {
      var path := QTablePath(userCount);
      JoinPair("--qtable_path", path);
      assert extra == [["--qtable_path", path]];
      assert parts[0] == "--qtable_path " + path;
    } else {
      assert extra == [];
    }
  }

  /** A list of argument groups none of whose words holds a space. */
  predicate SpaceFree(groups: seq<seq<string>>) {
    forall i, j :: 0 <= i < |groups| && 0 <= j < |groups[i]| ==> ' ' !in groups[i][j]
  }

  lemma BaseSpaceFree(power: string, strategy: string, userCount: int)
    requires ' ' !in power && ' ' !in strategy
    ensures SpaceFree(BaseGroups(power, strategy, userCount))
  {
    var base := BaseGroups(power, strategy, userCount);
    assert forall j :: 0 <= j < 3 ==> ' ' !in base[0][j];
  }

  lemma ExtraSpaceFree(strategy: string, userCount: int)
    ensures SpaceFree(ExtraGroups(strategy, userCount))
  {
    var path := QTablePath(userCount);
    assert ' ' !in path by {
      assert path == "trained_models/qtable_users_" + IntString(userCount) + ".npy";
    }
  }

  lemma SpaceFreeAppend(a: seq<seq<string>>, b: seq<seq<string>>)
    requires SpaceFree(a) && SpaceFree(b)
    ensures SpaceFree(a + b)
  {
    forall i, j | 0 <= i < |a + b| && 0 <= j < |(a + b)[i]|
      ensures ' ' !in (a + b)[i][j]
    {
      if i >= |a| {
        assert (a + b)[i] == b[i - |a|];
      }
    }
  }

  /** For strategy names without spaces the command splits at its spaces into exactly
      the intended arguments: the strategies and the user count each follow their own
      flag, an optimiser gets 5 generations of 30, the Q-learning strategy gets the
      Q-table for its user count, and every other strategy gets the base arguments
      alone. */
  lemma CommandArguments(power: string, strategy: string, userCount: int)
    requires ' ' !in power && ' ' !in strategy
    ensures Split(GenerateCommand(power, strategy, userCount), " ") == Flatten(ArgumentGroups(power, strategy, userCount))
  {
    var groups := ArgumentGroups(power, strategy, userCount);
    GroupsMakeParts(power, strategy, userCount);
    JoinFlatten(groups, " ");
    BaseSpaceFree(power, strategy, userCount);
    ExtraSpaceFree(strategy, userCount);
    SpaceFreeAppend(BaseGroups(power, strategy, userCount), ExtraGroups(strategy, userCount));
    FlattenAvoids(groups, ' ');
    JoinSplit(Flatten(groups), " ");
  }
}
