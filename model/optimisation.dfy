/** The matrix-level optimisation strategies of algorithms/optimization_strategy.py: each
    builds a square power-state grid over the network's nodes, wraps it in a `Matrix`
    and stores that object as the power-state matrix B. The random strategy adapts its
    probability to the last recorded request matrix, after drawing. */
module Optimisation {
  import opened Common
  import opened Nodes
  import opened Networks
  import opened Matrices

  /** A Python float as far as these strategies need: a number, or NaN (the mean of an
      empty array). */
  datatype Float = Finite(value: real) | NotANumber

  /** `x < p` on floats: every comparison with NaN is false. */
  predicate Below(x: real, p: Float) {
    p.Finite? && x < p.value
  }

  /** One entry of `(np.random.random(...) < p).astype(float)`. */
  function Bit(x: real, p: Float): real {
    if Below(x, p) then 1.0 else 0.0
  }

  /** With draws in [0, 1), a probability of at least 1 switches every node on, one of at
      most 0 (or NaN) switches every node off, and every entry is 0 or 1. */
  lemma BitBounds(x: real, p: Float)
    requires 0.0 <= x < 1.0
    ensures Bit(x, p) == 0.0 || Bit(x, p) == 1.0
    ensures p.Finite? && p.value >= 1.0 ==> Bit(x, p) == 1.0
    ensures p.NotANumber? || p.value <= 0.0 ==> Bit(x, p) == 0.0
  {
  }

  /** Sum of the first k entries of row i. */
  function RowSum(a: array2<real>, i: nat, k: nat): real
    reads a
    requires i < a.Length0 && k <= a.Length1
  {
    if k == 0 then 0.0 else RowSum(a, i, k - 1) + a[i, k - 1]
  }

  /** Sum of the first n rows. */
  function GridSum(a: array2<real>, n: nat): real
    reads a
    requires n <= a.Length0
  {
    if n == 0 then 0.0 else GridSum(a, n - 1) + RowSum(a, n - 1, a.Length1)
  }

  /** `np.mean(a)`: NaN for an empty grid. */
  function Mean(a: array2<real>): Float
    reads a
  {
    if a.Length0 == 0 || a.Length1 == 0 then NotANumber
    else Finite(GridSum(a, a.Length0) / (a.Length0 * a.Length1) as real)
  }

  /** `mean + 0.5`; NaN stays NaN. */
  function PlusHalf(m: Float): Float {
    if m.Finite? then Finite(m.value + 0.5) else NotANumber
  }

  ghost predicate Binary(a: array2<real>)
    reads a
  {
    forall i, j :: 0 <= i < a.Length0 && 0 <= j < a.Length1 ==> 0.0 <= a[i, j] <= 1.0
  }

  lemma {:induction false} RowSumBounds(a: array2<real>, i: nat, k: nat)
    requires Binary(a) && i < a.Length0 && k <= a.Length1
    ensures 0.0 <= RowSum(a, i, k) <= k as real
  {
    if k > 0 {
      RowSumBounds(a, i, k - 1);
    }
  }

  lemma {:induction false} GridSumBounds(a: array2<real>, n: nat)
    requires Binary(a) && n <= a.Length0
    ensures 0.0 <= GridSum(a, n) <= (n * a.Length1) as real
  {
    if n > 0 {
      GridSumBounds(a, n - 1);
      RowSumBounds(a, n - 1, a.Length1);
      assert (n * a.Length1) as real == ((n - 1) * a.Length1) as real + a.Length1 as real;
    }
  }

  /** The mean of a non-empty 0/1 request grid lies in [0, 1], so the adapted probability
      lies in [0.5, 1.5]; it can exceed 1, which then switches every node on. */
  lemma AdaptedProbability(a: array2<real>)
    requires Binary(a) && a.Length0 > 0 && a.Length1 > 0
    ensures Mean(a).Finite? && 0.0 <= Mean(a).value <= 1.0
    ensures 0.5 <= PlusHalf(Mean(a)).value <= 1.5
  {
    GridSumBounds(a, a.Length0);
    var total := (a.Length0 * a.Length1) as real;
    assert total > 0.0;
    assert GridSum(a, a.Length0) / total <= 1.0;
  }

  /** `AllOnStrategy`. */
  class AllOnStrategy {
    const matrices: DecisionMatrices
    const network: Network

    constructor (matrices: DecisionMatrices, network: Network)
      ensures this.matrices == matrices && this.network == network
    {
      this.matrices, this.network := matrices, network;
    }

    /** `optimize(history)`: an n-by-n grid of ones over the n network nodes, in a new
        `Matrix` that is also stored, as the object itself, under the power-state key. */
    method Optimize(history: seq<map<MatrixType, array2<real>>>) returns (b: Matrix)
      modifies matrices
      ensures fresh(b) && fresh(b.data) && b.Valid() && b.rows == |network.nodes| && b.cols == |network.nodes|
      ensures forall i, j :: 0 <= i < b.rows && 0 <= j < b.cols ==> b.data[i, j] == 1.0
      ensures matrices.matrices == old(matrices.matrices)[PowerState := Boxed(b)]
    {
      var n := |network.nodes|;
      var ones := new real[n, n]((_, _) => 1.0);
      b := new Matrix(n, n, "Power State Matrix");
      var updated := b.Update(ones);
      var stored := matrices.SetMatrix(Typed(PowerState), Boxed(b));
    }

    function GetName(): string {
      "All On Strategy"
    }
  }

  /** `RandomStrategy`: the probability of a node being on, adapted after each draw. */
  class RandomStrategy {
    const matrices: DecisionMatrices
    const network: Network
    var probability: Float

    constructor (matrices: DecisionMatrices, network: Network, probability: real := 0.5)
      ensures this.matrices == matrices && this.network == network && this.probability == Finite(probability)
    {
      this.matrices, this.network, this.probability := matrices, network, Finite(probability);
    }

    /** `optimize(history)` with `u` the uniform draws in [0, 1): entry (i, j) is on iff
        its draw is below the probability held before the call. With a history, the
        probability then becomes the mean of the last request matrix plus one half (a
        history entry without a request matrix raises KeyError before anything is
        stored). The grid is wrapped in a new `Matrix`, stored under the power-state key. */
    method Optimize(history: seq<map<MatrixType, array2<real>>>, u: seq<seq<real>>) returns (r: Result<Matrix>)
      requires |u| == |network.nodes| && forall i :: 0 <= i < |u| ==> |u[i]| == |u|
      modifies this, matrices
      ensures r.Err? <==> history != [] && RequestMatrix !in history[|history| - 1]
      ensures r.Err? ==> r.error == KeyError && probability == old(probability) && matrices.matrices == old(matrices.matrices)
      ensures r.Ok? ==> probability == (if history == [] then old(probability) else old(PlusHalf(Mean(history[|history| - 1][RequestMatrix]))))
      ensures r.Ok? ==>
        var b := r.value;
        && fresh(b) && fresh(b.data) && b.Valid() && b.rows == |u| && b.cols == |u|
        && (forall i, j :: 0 <= i < |u| && 0 <= j < |u| ==> b.data[i, j] == Bit(u[i][j], old(probability)))
        && matrices.matrices == old(matrices.matrices)[PowerState := Boxed(b)]
    {
      var n := |network.nodes|;
      var p := probability;
      var grid := new real[n, n]((i, j) requires 0 <= i < n && 0 <= j < n => Bit(u[i][j], p));
      if history != [] {
        var recent := history[|history| - 1];
        if RequestMatrix !in recent {
          return Err(KeyError);
        }
        probability := PlusHalf(Mean(recent[RequestMatrix]));
      }
      var b := new Matrix(n, n, "Power State Matrix");
      var updated := b.Update(grid);
      var stored := matrices.SetMatrix(Typed(PowerState), Boxed(b));
      r := Ok(b);
    }

    /** `get_name()`, with `show` the float formatting. */
    function GetName(show: Float -> string): string
      reads this
    {
      "Random Strategy (p=" + show(probability) + ")"
    }
  }

  /** The two strategies never share a name, whatever the probability and its formatting. */
  lemma NamesDiffer(a: AllOnStrategy, b: RandomStrategy, show: Float -> string)
    ensures a.GetName() != b.GetName(show)
  {
    assert a.GetName()[0] == 'A' && b.GetName(show)[0] == 'R';
  }

  /** As written, a snapshot taken after the all-on strategy has stored its `Matrix`
      fails: the store's copy step meets an object without `.copy()`. */
  method SnapshotAfterAllOn(s: AllOnStrategy) returns (r: Result<map<MatrixType, array2<real>>>)
    modifies s.matrices
    ensures r == Err(AttributeError)
  {
    var b := s.Optimize([]);
    assert s.matrices.matrices[PowerState].Boxed?;
    r := s.matrices.GetSnapshot();
  }

  /** The intended snapshot after the all-on strategy: its power-state entry is a copy of
      the all-ones grid, independent of the stored `Matrix`. */
  method IntendedSnapshotAfterAllOn(s: AllOnStrategy) returns (snap: map<MatrixType, array2<real>>)
    modifies s.matrices
    ensures PowerState in snap
    ensures var g := snap[PowerState];
      && fresh(g) && g.Length0 == |s.network.nodes| && g.Length1 == |s.network.nodes|
      && forall i, j :: 0 <= i < g.Length0 && 0 <= j < g.Length1 ==> g[i, j] == 1.0
  {
    var b := s.Optimize([]);
    snap := s.matrices.Snapshot();
  }
}
