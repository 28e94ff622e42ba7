/** The matrices of matrices/matrix.py and matrices/decision_matrices.py: a named grid
    of reals whose shape never changes, and the store of the four decision matrices
    (coverage zone A, power state B, request K, assignment X) with the generators that
    fill them from the network. A numpy array is an `array2<real>`; the store may also
    hold a `Matrix` object, as the optimisation strategies put one there. */
module Matrices {
  import opened Common
  import opened Requests
  import opened Nodes
  import opened Networks

  // ----- grids -----

  /** `np.zeros((rows, cols))`. */
  method Zeros(rows: nat, cols: nat) returns (a: array2<real>)
    ensures fresh(a) && a.Length0 == rows && a.Length1 == cols
    ensures forall i, j :: 0 <= i < rows && 0 <= j < cols ==> a[i, j] == 0.0
  {
    a := new real[rows, cols]((_, _) => 0.0);
  }

  /** `a.copy()`. */
  method CopyOf(a: array2<real>) returns (b: array2<real>)
    ensures fresh(b) && b.Length0 == a.Length0 && b.Length1 == a.Length1
    ensures forall i, j :: 0 <= i < a.Length0 && 0 <= j < a.Length1 ==> b[i, j] == a[i, j]
  {
    b := new real[a.Length0, a.Length1]((i, j) requires 0 <= i < a.Length0 && 0 <= j < a.Length1 reads a => a[i, j]);
  }

  /** `Matrix`: a named grid whose shape is fixed by the constructor. */
  class Matrix {
    var data: array2<real>
    const name: string
    ghost const rows: nat
    ghost const cols: nat

    ghost predicate Valid()
      reads this
    {
      data.Length0 == rows && data.Length1 == cols
    }

    constructor (rows: nat, cols: nat, name: string)
      ensures Valid() && this.rows == rows && this.cols == cols && this.name == name
      ensures fresh(data)
      ensures forall i, j :: 0 <= i < rows && 0 <= j < cols ==> data[i, j] == 0.0
    {
      this.rows, this.cols, this.name := rows, cols, name;
      data := new real[rows, cols]((_, _) => 0.0);
    }

    /** `update(data)`: a copy of a grid of the same shape replaces the data; any other
        shape raises ValueError and keeps the data. */
    method Update(other: array2<real>) returns (r: Result<()>)
      requires Valid()
      modifies this
      ensures Valid()
      ensures r.Ok? <==> other.Length0 == rows && other.Length1 == cols
      ensures r.Err? ==> r.error.ValueError? && data == old(data)
      ensures r.Ok? ==> fresh(data) && forall i, j :: 0 <= i < rows && 0 <= j < cols ==> data[i, j] == other[i, j]
    {
      if other.Length0 != data.Length0 || other.Length1 != data.Length1 {
        return Err(ValueError("Shape mismatch"));
      }
      data := CopyOf(other);
      r := Ok(());
    }

    /** `get_value(i, j)`: numpy indexing, so a negative index counts from the end and
        an index out of range raises IndexError. */
    function GetValue(i: int, j: int): (r: Result<real>)
      reads this, data
      ensures r.Ok? <==> -(data.Length0 as int) <= i < data.Length0 && -(data.Length1 as int) <= j < data.Length1
      ensures r.Err? ==> r.error == IndexError
      ensures r.Ok? ==> r.value == data[if i < 0 then data.Length0 + i else i, if j < 0 then data.Length1 + j else j]
    {
      match (PyIndex(i, data.Length0), PyIndex(j, data.Length1))
      case (Some(a), Some(b)) => Ok(data[a, b])
      case _ => Err(IndexError)
    }

    /** `set_value(i, j, value)`: exactly the addressed entry changes, and reading it back
        gives the value; an index out of range raises IndexError and changes nothing. */
    method SetValue(i: int, j: int, v: real) returns (r: Result<()>)
      requires Valid()
      modifies data
      ensures Valid()
      ensures r.Ok? <==> PyIndex(i, rows).Some? && PyIndex(j, cols).Some?
      ensures r.Err? ==> r.error == IndexError && unchanged(data)
      ensures r.Ok? ==> GetValue(i, j) == Ok(v)
      ensures r.Ok? ==> forall a, b :: 0 <= a < rows && 0 <= b < cols && (a, b) != (PyIndex(i, rows).value, PyIndex(j, cols).value) ==>
        data[a, b] == old(data[a, b])
    {
      var a, b := PyIndex(i, data.Length0), PyIndex(j, data.Length1);
      if a.None? || b.None? {
        return Err(IndexError);
      }
      data[a.value, b.value] := v;
      r := Ok(());
    }

    /** `apply_mask(mask)`: element-wise product in place when the shapes match (the mask
        may be the data itself); otherwise ValueError and the data is kept. */
    method ApplyMask(mask: array2<real>) returns (r: Result<()>)
      requires Valid()
      modifies data
      ensures Valid()
      ensures r.Ok? <==> mask.Length0 == rows && mask.Length1 == cols
      ensures r.Err? ==> r.error.ValueError? && unchanged(data)
      ensures r.Ok? ==> forall a, b :: 0 <= a < rows && 0 <= b < cols ==> data[a, b] == old(data[a, b]) * old(mask[a, b])
    {
      if mask.Length0 != data.Length0 || mask.Length1 != data.Length1 {
        return Err(ValueError("Mask shape mismatch"));
      }
      forall a, b | 0 <= a < data.Length0 && 0 <= b < data.Length1 {
        data[a, b] := data[a, b] * mask[a, b];
      }
      r := Ok(());
    }
  }

  // ----- matrix names -----

  /** `MatrixType` and its values. */
  datatype MatrixType = CoverageZone | PowerState | RequestMatrix | Assignment

  function Code(t: MatrixType): string {
    match t
    case CoverageZone => "A"
    case PowerState => "B"
    case RequestMatrix => "K"
    case Assignment => "X"
  }

  /** `MatrixType(value)`: the member with that value, or ValueError. */
  function ParseMatrixType(s: string): (r: Result<MatrixType>)
    ensures r.Ok? <==> s == "A" || s == "B" || s == "K" || s == "X"
    ensures r.Ok? ==> Code(r.value) == s
    ensures r.Err? ==> r.error.ValueError?
  {
    if s == "A" then Ok(CoverageZone)
    else if s == "B" then Ok(PowerState)
    else if s == "K" then Ok(RequestMatrix)
    else if s == "X" then Ok(Assignment)
    else Err(ValueError("not a valid MatrixType"))
  }

  /** Every member is recovered from its value. */
  lemma CodeRoundTrip(t: MatrixType)
    ensures ParseMatrixType(Code(t)) == Ok(t)
  {
  }

  /** A key as a caller passes it: a member, or a raw value. */
  datatype MatrixName = Typed(t: MatrixType) | Raw(value: string)

  /** What the store holds under a key: a numpy array, or a `Matrix` object. */
  datatype Stored = Grid(a: array2<real>) | Boxed(m: Matrix)

  /** The grid behind a stored value. */
  function DataOf(s: Stored): array2<real>
    reads if s.Boxed? then {s.m} else {}
  {
    if s.Grid? then s.a else s.m.data
  }

  // ----- coverage -----

  function Positions(ns: seq<BaseNode>): (r: seq<Position>)
    ensures |r| == |ns| && forall i :: 0 <= i < |ns| ==> r[i] == ns[i].position
  {
    if ns == [] then [] else Positions(ns[..|ns| - 1]) + [ns[|ns| - 1].position]
  }

  /** `distance <= coverage_radius`, compared on squared distances (a negative radius
      covers nothing, since a distance is never negative). */
  predicate InRange(u: Position, b: Position, radius: real) {
    0.0 <= radius && DistSq(u, b) <= radius * radius
  }

  /** Station j is marked for the user: in range, and no station in range is closer. */
  predicate Covers(u: Position, bss: seq<Position>, radius: real, j: nat)
    requires j < |bss|
  {
    && InRange(u, bss[j], radius)
    && forall k :: 0 <= k < |bss| && InRange(u, bss[k], radius) ==> DistSq(u, bss[j]) <= DistSq(u, bss[k])
  }

  /** The first in-range station among the first n at the least distance, if any
      station among them is in range. */
  function Nearest(u: Position, bss: seq<Position>, radius: real, n: nat): (r: Option<nat>)
    requires n <= |bss|
    ensures r.Some? <==> exists k :: 0 <= k < n && InRange(u, bss[k], radius)
    ensures r.Some? ==> r.value < n && InRange(u, bss[r.value], radius)
    ensures r.Some? ==> forall k :: 0 <= k < n && InRange(u, bss[k], radius) ==> DistSq(u, bss[r.value]) <= DistSq(u, bss[k])
  {
    if n == 0 then None
    else
      var p := Nearest(u, bss, radius, n - 1);
      if !InRange(u, bss[n - 1], radius) then p
      else if p.None? || DistSq(u, bss[n - 1]) < DistSq(u, bss[p.value]) then Some(n - 1)
      else p
  }

  /** A user's row: some station is marked iff some station is in range; every marked
      station is in range; marked stations tie on distance. */
  lemma CoverageRow(u: Position, bss: seq<Position>, radius: real)
    ensures (exists j :: 0 <= j < |bss| && Covers(u, bss, radius, j)) <==> (exists k :: 0 <= k < |bss| && InRange(u, bss[k], radius))
    ensures forall j, k :: 0 <= j < |bss| && 0 <= k < |bss| && Covers(u, bss, radius, j) && Covers(u, bss, radius, k) ==>
      DistSq(u, bss[j]) == DistSq(u, bss[k])
  {
    if exists k :: 0 <= k < |bss| && InRange(u, bss[k], radius) {
      var j := Nearest(u, bss, radius, |bss|).value;
      assert Covers(u, bss, radius, j);
    }
  }

  /** One user's row of the coverage matrix: the nearest distance in range, then the
      stations at that distance. */
  method CoverRow(m: array2<real>, i: nat, u: Position, bss: seq<Position>, radius: real)
    requires i < m.Length0 && m.Length1 == |bss|
    requires forall c :: 0 <= c < |bss| ==> m[i, c] == 0.0
    modifies m
    ensures forall c :: 0 <= c < |bss| ==> m[i, c] == (if Covers(u, bss, radius, c) then 1.0 else 0.0)
    ensures forall r, c :: 0 <= r < m.Length0 && r != i && 0 <= c < m.Length1 ==> m[r, c] == old(m[r, c])
  {
    var found, nearest := false, 0.0;
    var j := 0;
    while j < |bss|
      invariant 0 <= j <= |bss|
      invariant found <==> exists k :: 0 <= k < j && InRange(u, bss[k], radius)
      invariant found ==> exists k :: 0 <= k < j && InRange(u, bss[k], radius) && nearest == DistSq(u, bss[k])
      invariant forall k :: 0 <= k < j && InRange(u, bss[k], radius) ==> nearest <= DistSq(u, bss[k])
    {
      var d := DistSq(u, bss[j]);
      if InRange(u, bss[j], radius) && (!found || d < nearest) {
        found, nearest := true, d;
      }
      j := j + 1;
    }
    if found {
      j := 0;
      while j < |bss|
        invariant 0 <= j <= |bss|
        invariant forall c :: 0 <= c < j ==> m[i, c] == (if Covers(u, bss, radius, c) then 1.0 else 0.0)
        invariant forall c :: j <= c < |bss| ==> m[i, c] == 0.0
        invariant forall r, c :: 0 <= r < m.Length0 && r != i && 0 <= c < m.Length1 ==> m[r, c] == old(m[r, c])
      {
        if InRange(u, bss[j], radius) && DistSq(u, bss[j]) == nearest {
          m[i, j] := 1.0;
        }
        j := j + 1;
      }
    }
  }

  // ----- requests -----

  /** `[t] * k`. */
  function Repeat(t: nat, k: nat): (r: seq<nat>)
    ensures |r| == k && forall x :: 0 <= x < k ==> r[x] == t
  {
    seq(k, _ => t)
  }

  /** The tick of each request in order, for per-tick request counts `ps`. */
  function Ticks(ps: seq<nat>): (r: seq<nat>)
    ensures forall x :: 0 <= x < |r| ==> r[x] < |ps|
  {
    if ps == [] then [] else Ticks(ps[..|ps| - 1]) + Repeat(|ps| - 1, ps[|ps| - 1])
  }

  function Total(ps: seq<nat>): nat {
    if ps == [] then 0 else Total(ps[..|ps| - 1]) + ps[|ps| - 1]
  }

  lemma {:induction false} TicksFacts(ps: seq<nat>)
    ensures |Ticks(ps)| == Total(ps)
    ensures forall x, y :: 0 <= x < y < |Ticks(ps)| ==> Ticks(ps)[x] <= Ticks(ps)[y]
  {
    if ps != [] {
      TicksFacts(ps[..|ps| - 1]);
    }
  }

  function MinNat(a: nat, b: nat): nat { if a <= b then a else b }

  /** The tick of each filled row: the first n request ticks. */
  function Filled(ps: seq<nat>, n: nat): seq<nat> {
    Ticks(ps)[..MinNat(n, |Ticks(ps)|)]
  }

  /** The rows filled for `n` requests: as many as the draw holds, up to n, each at a
      tick of the draw, in non-decreasing tick order. When the draw counts exactly n
      requests, every row is filled. */
  lemma FilledRows(ps: seq<nat>, n: nat)
    ensures |Filled(ps, n)| == MinNat(n, Total(ps))
    ensures forall x :: 0 <= x < |Filled(ps, n)| ==> Filled(ps, n)[x] < |ps|
    ensures forall x, y :: 0 <= x < y < |Filled(ps, n)| ==> Filled(ps, n)[x] <= Filled(ps, n)[y]
    ensures Total(ps) == n ==> |Filled(ps, n)| == n
  {
    TicksFacts(ps);
  }

  /** A request grid: row r holds a single 1, at column rows[r], when r < |rows|, and
      zeros everywhere else. */
  ghost predicate RequestGrid(a: array2<real>, rows: seq<nat>)
    reads a
  {
    forall r, c :: 0 <= r < a.Length0 && 0 <= c < a.Length1 ==> a[r, c] == (if r < |rows| && rows[r] == c then 1.0 else 0.0)
  }

  /** The fill step: for each tick, one row per request counted there, while rows last. */
  method FillRequests(a: array2<real>, ps: seq<nat>)
    requires a.Length1 == |ps|
    requires forall r, c :: 0 <= r < a.Length0 && 0 <= c < a.Length1 ==> a[r, c] == 0.0
    modifies a
    ensures RequestGrid(a, Filled(ps, a.Length0))
  {
    var row := 0;
    var t := 0;
    while t < |ps|
      invariant 0 <= t <= |ps|
      invariant row == MinNat(a.Length0, |Ticks(ps[..t])|)
      invariant RequestGrid(a, Ticks(ps[..t])[..row])
    {
      ghost var done := Ticks(ps[..t]);
      var k := 0;
      while k < ps[t]
        invariant 0 <= k <= ps[t]
        invariant row == MinNat(a.Length0, |done + Repeat(t, k)|)
        invariant RequestGrid(a, (done + Repeat(t, k))[..row])
      {
        ghost var before := done + Repeat(t, k);
        assert done + Repeat(t, k + 1) == before + [t];
        if row < a.Length0 {
          assert (before + [t])[..row + 1] == before[..row] + [t];
          a[row, t] := 1.0;
          row := row + 1;
        } else {
          assert (before + [t])[..row] == before[..row];
        }
        k := k + 1;
      }
      assert ps[..t + 1][..t] == ps[..t];
      t := t + 1;
    }
    assert ps[..|ps|] == ps;
  }

  /** `int(x)` on a float: truncation toward zero. */
  function Trunc(x: real): int {
    if x >= 0.0 then x.Floor else -((-x).Floor)
  }

  /** The tick count and padding width of `generate_request_matrix`, or the error it
      raises before filling: non-positive counts, a zero tick length, a buffer that
      leaves a negative tick count (numpy refuses the shape) or none (the Poisson rate
      divides by it). */
  function RequestShape(numRequests: int, numSteps: int, time: real, timeBuffer: Option<real>): (r: Result<(nat, int)>)
    ensures r.Ok? ==> numRequests > 0 && r.value.0 > 0
    ensures numRequests <= 0 || numSteps <= 0 ==> r == Err(ValueError("Number of requests and steps must be positive"))
    ensures timeBuffer.None? && numRequests > 0 && numSteps > 0 ==> r == Ok((numSteps, 0))
    ensures r == Err(ZeroDivisionError) <==>
      numRequests > 0 && numSteps > 0 && timeBuffer.Some? && (time == 0.0 || numSteps == Trunc(timeBuffer.value / time))
    ensures numRequests > 0 && numSteps > 0 && timeBuffer.Some? && time != 0.0 && numSteps < Trunc(timeBuffer.value / time) ==>
      r == Err(ValueError("negative dimensions are not allowed"))
    ensures r.Ok? ==> r.value.0 + r.value.1 == numSteps
  {
    if numRequests <= 0 || numSteps <= 0 then Err(ValueError("Number of requests and steps must be positive"))
    else if timeBuffer.None? then Ok((numSteps as nat, 0))
    else if time == 0.0 then Err(ZeroDivisionError)
    else
      var pad := Trunc(timeBuffer.value / time);
      if numSteps - pad < 0 then Err(ValueError("negative dimensions are not allowed"))
      else if numSteps - pad == 0 then Err(ZeroDivisionError)
      else Ok(((numSteps - pad) as nat, pad))
  }

  /** `np.pad(a, (0, w))`: w rows and w columns of zeros appended. */
  method Padded(a: array2<real>, w: nat) returns (b: array2<real>)
    ensures fresh(b) && b.Length0 == a.Length0 + w && b.Length1 == a.Length1 + w
    ensures forall r, c :: 0 <= r < b.Length0 && 0 <= c < b.Length1 ==>
      b[r, c] == (if r < a.Length0 && c < a.Length1 then a[r, c] else 0.0)
  {
    b := new real[a.Length0 + w, a.Length1 + w]((r, c) reads a => if 0 <= r < a.Length0 && 0 <= c < a.Length1 then a[r, c] else 0.0);
  }

  // ----- assignment -----

  /** The first position of n in cs (the scan breaks at the first match). */
  function FirstIndex(cs: seq<BaseNode>, n: BaseNode): (r: Option<nat>)
    ensures r.Some? <==> n in cs
    ensures r.Some? ==> r.value < |cs| && cs[r.value] == n && forall k :: 0 <= k < r.value ==> cs[k] != n
  {
    if cs == [] then None
    else if cs[0] == n then Some(0)
    else match FirstIndex(cs[1..], n)
      case None => None
      case Some(k) => Some(k + 1)
  }

  function Objects(rs: seq<Request<BaseNode>>): set<Request<BaseNode>> {
    set q | q in rs
  }

  /** Column c is marked for these requests: one of them is processing at the node that
      first appears at position c of the compute nodes. */
  ghost predicate AssignedBy(rs: seq<Request<BaseNode>>, cs: seq<BaseNode>, c: nat)
    reads Objects(rs)
  {
    exists p :: 0 <= p < |rs| && rs[p].status == Processing && FirstIndex(cs, rs[p].currentNode) == Some(c)
  }

  /** One user's row of the assignment matrix. */
  method AssignRow(m: array2<real>, i: nat, rs: seq<Request<BaseNode>>, cs: seq<BaseNode>)
    requires i < m.Length0 && m.Length1 == |cs|
    requires forall c :: 0 <= c < |cs| ==> m[i, c] == 0.0
    modifies m
    ensures forall c :: 0 <= c < |cs| ==> m[i, c] == (if AssignedBy(rs, cs, c) then 1.0 else 0.0)
    ensures forall r, c :: 0 <= r < m.Length0 && r != i && 0 <= c < m.Length1 ==> m[r, c] == old(m[r, c])
  {
    var k := 0;
    while k < |rs|
      invariant 0 <= k <= |rs|
      invariant forall c :: 0 <= c < |cs| ==> m[i, c] == (if AssignedBy(rs[..k], cs, c) then 1.0 else 0.0)
      invariant forall r, c :: 0 <= r < m.Length0 && r != i && 0 <= c < m.Length1 ==> m[r, c] == old(m[r, c])
    {
      var request := rs[k];
      assert forall p :: 0 <= p < k ==> rs[..k + 1][p] == rs[..k][p];
      assert rs[..k + 1][k] == request;
      if request.status == Processing {
        var j := 0;
        while j < |cs|
          invariant 0 <= j <= |cs|
          invariant forall x :: 0 <= x < j ==> cs[x] != request.currentNode
          invariant forall c :: 0 <= c < |cs| ==> m[i, c] == (if AssignedBy(rs[..k], cs, c) then 1.0 else 0.0)
        {
          if cs[j] == request.currentNode {
            m[i, j] := 1.0;
            break;
          }
          j := j + 1;
        }
      }
      k := k + 1;
    }
    assert rs[..|rs|] == rs;
  }

  // ----- the store -----

  /** `DecisionMatrices`: the store of the decision matrices, keyed by member. */
  class DecisionMatrices {
    var matrices: map<MatrixType, Stored>

    /** Four distinct `dimension`-square zero grids, one per member. */
    constructor (dimension: nat := 0)
      ensures matrices.Keys == {CoverageZone, PowerState, RequestMatrix, Assignment}
      ensures forall t :: t in matrices ==> matrices[t].Grid? && fresh(matrices[t].a)
      ensures forall t :: t in matrices ==> matrices[t].a.Length0 == dimension && matrices[t].a.Length1 == dimension
      ensures forall t, i, j :: t in matrices && 0 <= i < dimension && 0 <= j < dimension ==> matrices[t].a[i, j] == 0.0
      ensures forall t, u :: t in matrices && u in matrices && t != u ==> matrices[t].a != matrices[u].a
    {
      var a := Zeros(dimension, dimension);
      var b := Zeros(dimension, dimension);
      var k := Zeros(dimension, dimension);
      var x := Zeros(dimension, dimension);
      matrices := map[CoverageZone := Grid(a), PowerState := Grid(b), RequestMatrix := Grid(k), Assignment := Grid(x)];
    }

    /** `generate_coverage_matrix(network, coverage_radius)`: user i's row marks every base
        station in range at the least distance among those in range. */
    method GenerateCoverageMatrix(net: Network, radius: real := 5000.0)
      modifies this
      ensures var users, bss := OfKind(net.nodes, UserDeviceNode), Positions(OfKind(net.nodes, BaseStationNode));
        && CoverageZone in matrices && matrices[CoverageZone].Grid?
        && var m := matrices[CoverageZone].a;
        && fresh(m) && m.Length0 == |users| && m.Length1 == |bss|
        && forall i, j :: 0 <= i < |users| && 0 <= j < |bss| ==>
             m[i, j] == (if Covers(users[i].position, bss, radius, j) then 1.0 else 0.0)
      ensures forall t :: t != CoverageZone ==> (t in matrices <==> t in old(matrices)) && (t in matrices ==> matrices[t] == old(matrices[t]))
    {
      var users := OfKind(net.nodes, UserDeviceNode);
      var bss := Positions(OfKind(net.nodes, BaseStationNode));
      var m := Zeros(|users|, |bss|);
      var i := 0;
      while i < |users|
        invariant 0 <= i <= |users|
        invariant forall r, c :: 0 <= r < i && 0 <= c < |bss| ==> m[r, c] == (if Covers(users[r].position, bss, radius, c) then 1.0 else 0.0)
        invariant forall r, c :: i <= r < |users| && 0 <= c < |bss| ==> m[r, c] == 0.0
        invariant matrices == old(matrices)
      {
        CoverRow(m, i, users[i].position, bss, radius);
        i := i + 1;
      }
      matrices := matrices[CoverageZone := Grid(m)];
    }

    /** `generate_request_matrix(num_requests, num_steps, time, time_buffer)` with `ps` the
        accepted Poisson draw (the per-tick request counts): rows are filled in tick order
        from the draw, then padded when a buffer is given. A negative padding width fails
        only at the padding, after the unpadded grid was stored. */
    method GenerateRequestMatrix(numRequests: int, numSteps: int, time: real, timeBuffer: Option<real>, ps: seq<nat>) returns (r: Result<()>)
      requires RequestShape(numRequests, numSteps, time, timeBuffer).Ok? ==> |ps| == RequestShape(numRequests, numSteps, time, timeBuffer).value.0
      modifies this
      ensures RequestShape(numRequests, numSteps, time, timeBuffer).Err? ==>
        r == Err(RequestShape(numRequests, numSteps, time, timeBuffer).error) && matrices == old(matrices)
      ensures RequestShape(numRequests, numSteps, time, timeBuffer).Ok? ==>
        var (steps, pad) := RequestShape(numRequests, numSteps, time, timeBuffer).value;
        && (r.Ok? <==> pad >= 0)
        && (r.Err? ==> r.error.ValueError?)
        && RequestMatrix in matrices && matrices[RequestMatrix].Grid?
        && var k := matrices[RequestMatrix].a;
        && fresh(k)
        && k.Length0 == numRequests + (if pad >= 0 then pad else 0)
        && k.Length1 == steps + (if pad >= 0 then pad else 0)
        && RequestGrid(k, Filled(ps, numRequests))
        && forall t :: t != RequestMatrix ==> (t in matrices <==> t in old(matrices)) && (t in matrices ==> matrices[t] == old(matrices[t]))
    {
      var shape := RequestShape(numRequests, numSteps, time, timeBuffer);
      if shape.Err? {
        return Err(shape.error);
      }
      var (steps, pad) := shape.value;
      var k := Zeros(numRequests, steps);
      FillRequests(k, ps);
      matrices := matrices[RequestMatrix := Grid(k)];
      if timeBuffer.None? {
        return Ok(());
      }
      if pad < 0 {
        return Err(ValueError("index can't contain negative values"));
      }
      var padded := Padded(k, pad);
      matrices := matrices[RequestMatrix := Grid(padded)];
      r := Ok(());
    }

    /** `update_assignment_matrix(network)`: entry (i, j) is 1 iff a request of user i is
        processing at compute node j (the first position of that node in the list). */
    method UpdateAssignmentMatrix(net: Network)
      modifies this
      ensures var users, cs := OfKind(net.nodes, UserDeviceNode), old(net.GetComputeNodes(None, false));
        && Assignment in matrices && matrices[Assignment].Grid?
        && var m := matrices[Assignment].a;
        && fresh(m) && m.Length0 == |users| && m.Length1 == |cs|
        && forall i, j :: 0 <= i < |users| && 0 <= j < |cs| ==>
             m[i, j] == (if AssignedBy(users[i].currentRequests, cs, j) then 1.0 else 0.0)
      ensures forall t :: t != Assignment ==> (t in matrices <==> t in old(matrices)) && (t in matrices ==> matrices[t] == old(matrices[t]))
    {
      var users := OfKind(net.nodes, UserDeviceNode);
      var cs := net.GetComputeNodes(None, false);
      var m := Zeros(|users|, |cs|);
      // the users are nodes of the network, so the row updates leave them alone
      assert forall r :: 0 <= r < |users| ==> users[r] in net.nodes;
      var i := 0;
      while i < |users|
        invariant 0 <= i <= |users|
        invariant forall r, c :: 0 <= r < i && 0 <= c < |cs| ==> m[r, c] == (if AssignedBy(users[r].currentRequests, cs, c) then 1.0 else 0.0)
        invariant forall r, c :: i <= r < |users| && 0 <= c < |cs| ==> m[r, c] == 0.0
        invariant forall r :: 0 <= r < |users| ==> users[r] in net.nodes
        invariant matrices == old(matrices)
      {
        AssignRow(m, i, users[i].currentRequests, cs);
        i := i + 1;
      }
      matrices := matrices[Assignment := Grid(m)];
    }

    /** `get_matrix(name)`: only a member finds a stored matrix; a missing key, and any raw
        value, raises ValueError (the lookup does not convert values to members). */
    function GetMatrix(name: MatrixName): (r: Result<Stored>)
      reads this
      ensures r.Ok? <==> name.Typed? && name.t in matrices
      ensures r.Err? ==> r.error.ValueError?
      ensures r.Ok? ==> r.value == matrices[name.t]
    {
      if name.Typed? && name.t in matrices then Ok(matrices[name.t])
      else Err(ValueError("Matrix does not exist."))
    }

    /** `set_matrix(name, matrix)`: a raw value is converted to its member first (ValueError
        when it names none); the matrix is then stored, and found again by the member. */
    method SetMatrix(name: MatrixName, m: Stored) returns (r: Result<()>)
      modifies this
      ensures r.Err? <==> name.Raw? && ParseMatrixType(name.value).Err?
      ensures r.Err? ==> r.error.ValueError? && matrices == old(matrices)
      ensures r.Ok? ==>
        var t := if name.Typed? then name.t else ParseMatrixType(name.value).value;
        matrices == old(matrices)[t := m] && GetMatrix(Typed(t)) == Ok(m)
    {
      var t: MatrixType;
      if name.Typed? {
        t := name.t;
      } else {
        var parsed := ParseMatrixType(name.value);
        if parsed.Err? {
          return Err(parsed.error);
        }
        t := parsed.value;
      }
      matrices := matrices[t := m];
      r := Ok(());
    }

    /** `get_snapshot()`: a copy of each stored grid. As written it calls `.copy()` on
        whatever is stored, and a `Matrix` object has no such method: any stored `Matrix`
        makes it raise AttributeError. */
    method GetSnapshot() returns (r: Result<map<MatrixType, array2<real>>>)
      ensures r.Err? <==> exists t :: t in matrices && matrices[t].Boxed?
      ensures r.Err? ==> r.error == AttributeError
      ensures r.Ok? ==> r.value.Keys == matrices.Keys
      ensures r.Ok? ==> forall t :: t in r.value ==> fresh(r.value[t]) && SameGrid(r.value[t], matrices[t].a)
    {
      var keys := matrices.Keys;
      var snap := map[];
      while keys != {}
        invariant keys <= matrices.Keys
        invariant snap.Keys == matrices.Keys - keys
        invariant forall t :: t in snap ==> matrices[t].Grid? && fresh(snap[t]) && SameGrid(snap[t], matrices[t].a)
      {
        var t :| t in keys;
        if matrices[t].Boxed? {
          return Err(AttributeError);
        }
        var c := CopyOf(matrices[t].a);
        snap := snap[t := c];
        keys := keys - {t};
      }
      r := Ok(snap);
    }

    /** The snapshot as intended: a copy of the grid behind every stored value, whether
        an array or a `Matrix`. */
    method Snapshot() returns (snap: map<MatrixType, array2<real>>)
      ensures snap.Keys == matrices.Keys
      ensures forall t :: t in snap ==> fresh(snap[t]) && SameGrid(snap[t], DataOf(matrices[t]))
    {
      var keys := matrices.Keys;
      snap := map[];
      while keys != {}
        invariant keys <= matrices.Keys
        invariant snap.Keys == matrices.Keys - keys
        invariant forall t :: t in snap ==> fresh(snap[t]) && SameGrid(snap[t], DataOf(matrices[t]))
      {
        var t :| t in keys;
        var c := CopyOf(DataOf(matrices[t]));
        snap := snap[t := c];
        keys := keys - {t};
      }
    }
  }

  /** Two grids of the same shape and entries. */
  ghost predicate SameGrid(a: array2<real>, b: array2<real>)
    reads a, b
  {
    && a.Length0 == b.Length0 && a.Length1 == b.Length1
    && forall i, j :: 0 <= i < a.Length0 && 0 <= j < a.Length1 ==> a[i, j] == b[i, j]
  }
}
