/** Real-number helpers for the integrality test: absolute value, the distance to the
    nearest integer, and Python's built-in `round` (round half to even). */
module Numbers {

  function Abs(x: real): real {
    if x < 0.0 then -x else x
  }

  /** How far x is from the integer closest to it. A tie (x exactly halfway between two
      integers) gives 1/2, whichever neighbour a rounding rule would pick. */
  function DistanceToInteger(x: real): (d: real)
    ensures 0.0 <= d <= 0.5
    ensures d == 0.0 <==> x == x.Floor as real
    ensures d <= x - x.Floor as real && d <= x.Floor as real + 1.0 - x
  {
    var f := x - x.Floor as real;
    if f <= 0.5 then f else 1.0 - f
  }

  /** Python's `round(x)` with no digit count: the nearest integer, ties going to the
      even neighbour. */
  function PyRound(x: real): (n: int)
    ensures Abs(x - n as real) == DistanceToInteger(x)
    ensures Abs(x - n as real) == 0.5 ==> n % 2 == 0
    ensures x.Floor <= n <= x.Floor + 1
  {
    var fl := x.Floor;
    var f := x - fl as real;
    if f < 0.5 then fl
    else if f > 0.5 then fl + 1
    else if fl % 2 == 0 then fl
    else fl + 1
  }
}
