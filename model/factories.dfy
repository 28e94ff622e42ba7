/** The two strategy factories: algorithms/assignment/strategy_factory.py and
    algorithms/power/strategy_factory.py. Each keeps a class-level dictionary from names
    to strategy classes, modelled as an object whose map the registration updates; the
    insertion order of the names is kept beside the map, as a Python dict keeps it.
    A factory hands out the class it would instantiate; the constructors themselves are
    modelled with their strategies. */
module Factories {
  import opened Common

  // ----- assignment strategies -----

  /** A class an assignment factory can meet: the built-in strategies, or any other
      class, known by its name and by whether it derives from `AssignmentStrategy`. */
  datatype AssignmentClass =
    | TimeGreedyClass | ClosestNodeClass | EnergyGreedyClass | HapsOnlyClass
    | RandomClass | MatrixBasedClass | QLearningClass
    | OtherAssignmentClass(name: string, isStrategy: bool)

  predicate IsAssignmentStrategy(c: AssignmentClass) {
    !c.OtherAssignmentClass? || c.isStrategy
  }

  /** The `strategy` argument of `get_strategy`: None, a name, a class, an existing
      strategy instance (known by an identity and its class), or anything else. */
  datatype StrategyArg =
    | NoStrategy
    | ByName(name: string)
    | ByClass(cls: AssignmentClass)
    | ByInstance(id: nat, of: AssignmentClass)
    | Unsupported

  /** What `get_strategy` returns: a new instance of a class built with the network,
      one built with the network and the Q-table path, or the instance it was given. */
  datatype Made =
    | Created(cls: AssignmentClass)
    | CreatedWithQTable(cls: AssignmentClass, qtablePath: Option<string>)
    | Reused(id: nat)

  /** The names served by the matrix-based strategy (a Python set, so unordered). */
  const Optimisers: set<string> := {"GA", "PSO", "DE"}

  /** The initial registry, in insertion order. */
  const AssignmentNames: seq<string> :=
    ["TimeGreedy", "ClosestNode", "EnergyGreedy", "HAPSOnly", "Random", "MatrixBased", "QLearning"]

  function InitialAssignments(): map<string, AssignmentClass> {
    map["TimeGreedy" := TimeGreedyClass, "ClosestNode" := ClosestNodeClass,
        "EnergyGreedy" := EnergyGreedyClass, "HAPSOnly" := HapsOnlyClass,
        "Random" := RandomClass, "MatrixBased" := MatrixBasedClass, "QLearning" := QLearningClass]
  }

  /** `get_strategy` over a registry: None takes the class registered as "TimeGreedy";
      an optimiser name takes the one registered as "MatrixBased"; any other name must
      be registered, and "QLearning" alone also gets the Q-table path; a strategy class
      is instantiated (the Q-learning class with the path); a strategy instance is
      returned as it is; anything else raises ValueError. */
  function Dispatch(strategies: map<string, AssignmentClass>, arg: StrategyArg, qtablePath: Option<string>): (r: Result<Made>)
    requires "TimeGreedy" in strategies && "MatrixBased" in strategies
    ensures r.Err? <==>
      || (arg.ByName? && arg.name !in Optimisers && arg.name !in strategies)
      || (arg.ByClass? && !IsAssignmentStrategy(arg.cls))
      || arg.Unsupported?
    ensures r.Err? ==> r.error.ValueError?
    ensures r.Ok? && r.value.Reused? ==> arg.ByInstance? && arg.id == r.value.id
    ensures r.Ok? && r.value.CreatedWithQTable? ==> r.value.qtablePath == qtablePath
    ensures arg.NoStrategy? ==> r == Ok(Created(strategies["TimeGreedy"]))
    ensures arg.ByName? && arg.name in Optimisers ==> r == Ok(Created(strategies["MatrixBased"]))
    ensures arg.ByName? && arg.name !in Optimisers && arg.name in strategies ==>
      r == Ok(if arg.name == "QLearning" then CreatedWithQTable(strategies[arg.name], qtablePath) else Created(strategies[arg.name]))
    ensures arg.ByClass? && IsAssignmentStrategy(arg.cls) ==>
      r == Ok(if arg.cls == QLearningClass then CreatedWithQTable(arg.cls, qtablePath) else Created(arg.cls))
  {
    match arg
    case NoStrategy => Ok(Created(strategies["TimeGreedy"]))
    case ByName(name) =>
      if name in Optimisers then Ok(Created(strategies["MatrixBased"]))
      else if name !in strategies then Err(ValueError("Unknown strategy: " + name))
      else if name == "QLearning" then Ok(CreatedWithQTable(strategies[name], qtablePath))
      else Ok(Created(strategies[name]))
    case ByClass(c) =>
      if !IsAssignmentStrategy(c) then Err(ValueError("Strategy must be a string name, AssignmentStrategy class, or instance"))
      else if c == QLearningClass then Ok(CreatedWithQTable(c, qtablePath))
      else Ok(Created(c))
    case ByInstance(id, _) => Ok(Reused(id))
    case Unsupported => Err(ValueError("Strategy must be a string name, AssignmentStrategy class, or instance"))
  }

  /** The dispatch rules on the initial registry: None gives time-greedy, the optimiser
      names give matrix-based, each registered name gives its own class and only
      "QLearning" receives the Q-table path, and an unknown name raises ValueError. */
  lemma InitialDispatch(name: string, qtablePath: Option<string>)
    ensures Dispatch(InitialAssignments(), NoStrategy, qtablePath) == Ok(Created(TimeGreedyClass))
    ensures name in Optimisers ==> Dispatch(InitialAssignments(), ByName(name), qtablePath) == Ok(Created(MatrixBasedClass))
    ensures Dispatch(InitialAssignments(), ByName("QLearning"), qtablePath) == Ok(CreatedWithQTable(QLearningClass, qtablePath))
    ensures Dispatch(InitialAssignments(), ByName("HAPSOnly"), qtablePath) == Ok(Created(HapsOnlyClass))
    ensures name !in Optimisers && name !in AssignmentNames ==>
      Dispatch(InitialAssignments(), ByName(name), qtablePath).Err? &&
      Dispatch(InitialAssignments(), ByName(name), qtablePath).error.ValueError?
  {
  }

  /** Registering a strategy class under a name that is not an optimiser name makes that
      name dispatch to it; the Q-table path is passed exactly when the name is
      "QLearning". An optimiser name keeps going to matrix-based whatever is registered. */
  lemma RegisteredIsDispatched(strategies: map<string, AssignmentClass>, name: string, c: AssignmentClass, qtablePath: Option<string>)
    requires "TimeGreedy" in strategies && "MatrixBased" in strategies
    requires IsAssignmentStrategy(c)
    ensures var after := strategies[name := c];
      && "TimeGreedy" in after && "MatrixBased" in after
      && (name !in Optimisers ==>
            Dispatch(after, ByName(name), qtablePath) ==
              Ok(if name == "QLearning" then CreatedWithQTable(c, qtablePath) else Created(c)))
      && (name in Optimisers ==> Dispatch(after, ByName(name), qtablePath) == Ok(Created(after["MatrixBased"])))
  {
  }

  /** Keys of a dictionary in insertion order, with no repetition. */
  ghost predicate Ordered<V>(order: seq<string>, m: map<string, V>) {
    && (forall i, j :: 0 <= i < j < |order| ==> order[i] != order[j])
    && (forall k :: k in m <==> k in order)
  }

  /** Assigning to a dictionary key: a new key goes to the end, an existing one keeps
      its place. */
  function Inserted(order: seq<string>, name: string): seq<string> {
    if name in order then order else order + [name]
  }

  lemma InsertedOrdered<V>(order: seq<string>, m: map<string, V>, name: string, v: V)
    requires Ordered(order, m)
    ensures Ordered(Inserted(order, name), m[name := v])
  {
  }

  /** `AssignmentStrategyFactory` with its class-level registry. */
  class AssignmentFactory {
    var strategies: map<string, AssignmentClass>
    var order: seq<string>

    ghost predicate Valid()
      reads this
    {
      && "TimeGreedy" in strategies && "MatrixBased" in strategies
      && Ordered(order, strategies)
      && forall k :: k in strategies ==> IsAssignmentStrategy(strategies[k])
    }

    constructor ()
      ensures strategies == InitialAssignments() && order == AssignmentNames
      ensures Valid()
    {
      strategies := InitialAssignments();
      order := AssignmentNames;
    }

    /** `get_strategy(strategy, network, qtable_path)`. */
    function GetStrategy(arg: StrategyArg, qtablePath: Option<string>): Result<Made>
      reads this
      requires Valid()
    {
      Dispatch(strategies, arg, qtablePath)
    }

    /** `register_strategy(name, strategy_class)`: a class that is not a strategy raises
        ValueError and changes nothing; otherwise the name is added or overwritten. */
    method RegisterStrategy(name: string, c: AssignmentClass) returns (r: Result<()>)
      requires Valid()
      modifies this
      ensures Valid()
      ensures r.Err? <==> !IsAssignmentStrategy(c)
      ensures r.Err? ==> r.error.ValueError? && strategies == old(strategies) && order == old(order)
      ensures r.Ok? ==> strategies == old(strategies)[name := c] && order == Inserted(old(order), name)
    {
      if !IsAssignmentStrategy(c) {
        return Err(ValueError("Strategy must inherit from AssignmentStrategy"));
      }
      InsertedOrdered(order, strategies, name, c);
      strategies := strategies[name := c];
      order := Inserted(order, name);
      r := Ok(());
    }

    /** `available_strategies`: the registered names in insertion order, then the three
        optimiser names in the order the set yields them (any order). */
    method AvailableStrategies() returns (names: seq<string>)
      requires Valid()
      ensures |names| == |order| + 3
      ensures names[..|order|] == order
      ensures multiset(names[|order|..]) == multiset{"GA", "PSO", "DE"}
    {
      var tail: seq<string> :| multiset(tail) == multiset{"GA", "PSO", "DE"} by {
        assert multiset(["GA", "PSO", "DE"]) == multiset{"GA", "PSO", "DE"};
      }
      names := order + tail;
      assert names[..|order|] == order;
      assert names[|order|..] == tail;
    }
  }

  // ----- power strategies -----

  /** A class a power factory can meet: the built-in strategies, or any other class,
      known by its name and by whether it derives from `PowerStrategy`. */
  datatype PowerClass =
    | AllOnClass | OnDemandClass | OnDemandWithTimeoutClass | RandomPowerClass
    | OtherPowerClass(name: string, isStrategy: bool)

  predicate IsPowerStrategy(c: PowerClass) {
    !c.OtherPowerClass? || c.isStrategy
  }

  const PowerNames: seq<string> := ["AllOn", "OnDemand", "OnDemandWithTimeout", "Random"]

  function InitialPowers(): map<string, PowerClass> {
    map["AllOn" := AllOnClass, "OnDemand" := OnDemandClass,
        "OnDemandWithTimeout" := OnDemandWithTimeoutClass, "Random" := RandomPowerClass]
  }

  /** `PowerStrategyFactory` with its class-level registry. */
  class PowerFactory {
    var strategies: map<string, PowerClass>
    var order: seq<string>

    ghost predicate Valid()
      reads this
    {
      Ordered(order, strategies)
    }

    constructor ()
      ensures strategies == InitialPowers() && order == PowerNames
      ensures Valid()
    {
      strategies := InitialPowers();
      order := PowerNames;
    }

    /** `get_strategy(name, **kwargs)`: the class registered under the name, to be built
        with the keyword arguments; an unknown name raises ValueError. */
    function GetStrategy(name: string): (r: Result<PowerClass>)
      reads this
      ensures r.Err? <==> name !in strategies
      ensures r.Err? ==> r.error == ValueError("Unknown power strategy: " + name)
      ensures r.Ok? ==> r.value == strategies[name]
    {
      if name !in strategies then Err(ValueError("Unknown power strategy: " + name))
      else Ok(strategies[name])
    }

    /** `register_strategy(name, strategy_class)`: a class that is not a strategy raises
        ValueError and changes nothing; otherwise the name is added or overwritten. */
    method RegisterStrategy(name: string, c: PowerClass) returns (r: Result<()>)
      requires Valid()
      modifies this
      ensures Valid()
      ensures r.Err? <==> !IsPowerStrategy(c)
      ensures r.Err? ==> r.error.ValueError? && strategies == old(strategies) && order == old(order)
      ensures r.Ok? ==> strategies == old(strategies)[name := c] && order == Inserted(old(order), name)
    {
      if !IsPowerStrategy(c) {
        return Err(ValueError("Strategy must inherit from PowerStrategy"));
      }
      InsertedOrdered(order, strategies, name, c);
      strategies := strategies[name := c];
      order := Inserted(order, name);
      r := Ok(());
    }

    /** `available_strategies`: the keys in insertion order. */
    function AvailableStrategies(): (names: seq<string>)
      reads this
      requires Valid()
      ensures forall k :: k in names <==> k in strategies
      ensures forall i, j :: 0 <= i < j < |names| ==> names[i] != names[j]
    {
      order
    }
  }

  /** A fresh power factory knows the four built-in strategies in their declared order,
      and any other name is unknown. */
  lemma InitialPowerRegistry(name: string)
    ensures Ordered(PowerNames, InitialPowers())
    ensures name in InitialPowers() <==> name in PowerNames
    ensures InitialPowers()["Random"] == RandomPowerClass
  {
  }
}
