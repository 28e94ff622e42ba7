/** Small shared vocabulary: optional values, the exceptions the simulator raises,
    and results that carry either a value or one of those exceptions. */
module Common {

  datatype Option<+T> = None | Some(value: T)

  /** The Python exception classes the modelled code raises or lets escape. */
  datatype Error =
    | ValueError(message: string)
    | IndexError
    | ZeroDivisionError
    | AttributeError
    | KeyError
    | TypeError

  datatype Result<+T> = Ok(value: T) | Err(error: Error)

  /** A positive real, used for quantities such as link capacity whose formula is not modelled. */
  type PosReal = r: real | r > 0.0 witness 1.0

  /** Python's index rule for a list or array of length n: a negative index counts from
      the end, and an index outside [-n, n) raises IndexError (None here). */
  function PyIndex(i: int, n: nat): (r: Option<nat>)
    ensures r.Some? <==> -(n as int) <= i < n
    ensures r.Some? ==> r.value < n && r.value as int == (if i < 0 then i + n else i)
  {
    if 0 <= i < n then Some(i) else if -(n as int) <= i < 0 then Some(i + n) else None
  }

  function Max(a: real, b: real): real { if a >= b then a else b }
  function Min(a: real, b: real): real { if a <= b then a else b }

  /** Quotients of reals: a part of a positive whole is a fraction of it, and dividing by
      a positive number keeps order. */
  lemma Fraction(x: real, d: real)
    requires 0.0 <= x <= d && d > 0.0
    ensures 0.0 <= x / d <= 1.0
  {
    assert (x / d) * d == x;
  }

  lemma SelfQuotient(d: real)
    requires d > 0.0
    ensures d / d == 1.0 && 0.0 / d == 0.0
  {
  }

  lemma FractionMonotone(x: real, y: real, d: real)
    requires x <= y && d > 0.0
    ensures x / d <= y / d
  {
    assert y / d - x / d == (y - x) / d;
    assert (y - x) / d * d == y - x;
  }
}
