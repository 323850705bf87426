/** Conversions of real numbers: truncation to an integer, and Python's `round(x, digits)`,
    which goes to the nearest multiple and on a tie to the even one. */
module Rounding {

  function Min(a: real, b: real): real {
    if a <= b then a else b
  }

  function Max(a: real, b: real): real {
    if a >= b then a else b
  }

  /** `int(x)`: truncation toward zero. */
  function Trunc(x: real): int {
    if x >= 0.0 then x.Floor else -((-x).Floor)
  }

  function RoundInt(y: real): int {
    var below := y.Floor;
    var rest := y - below as real;
    if rest < 0.5 || (rest == 0.5 && below % 2 == 0) then below else below + 1
  }

  /** `scale` is the power of ten of the requested digits. */
  function Round(x: real, scale: real): real
    requires scale > 0.0
  {
    RoundInt(x * scale) as real / scale
  }

  lemma {:induction false} RoundIntMonotone(x: real, y: real)
    requires x <= y
    ensures RoundInt(x) <= RoundInt(y)
  {
    assert x.Floor <= y.Floor;
  }

  lemma {:induction false} RoundIntNear(y: real)
    ensures -0.5 <= RoundInt(y) as real - y <= 0.5
  {
  }

  /** Which integer comes out: the one within a half, and on a tie the even one. */
  lemma {:induction false} RoundIntExactly(y: real, k: int)
    ensures RoundInt(y) == k
       <==> -0.5 < y - k as real < 0.5 || ((y - k as real == 0.5 || k as real - y == 0.5) && k % 2 == 0)
  {
    var below := y.Floor;
    if k < below || k > below + 1 {
      assert k as real - y > 0.5 || y - k as real > 0.5;
    }
  }

  lemma {:induction false} RoundIntExact(k: int)
    ensures RoundInt(k as real) == k
  {
  }

  lemma {:induction false} Times(x: real, y: real, s: real)
    requires s > 0.0 && x <= y
    ensures x * s <= y * s
  {
  }

  lemma {:induction false} Over(x: real, y: real, s: real)
    requires s > 0.0 && x <= y
    ensures x / s <= y / s
  {
  }

  lemma {:induction false} OverTimes(x: real, s: real)
    requires s > 0.0
    ensures x / s * s == x
  {
  }

  lemma {:induction false} Monotone(x: real, y: real, scale: real)
    requires scale > 0.0 && x <= y
    ensures Round(x, scale) <= Round(y, scale)
  {
    Times(x, y, scale);
    RoundIntMonotone(x * scale, y * scale);
    Over(RoundInt(x * scale) as real, RoundInt(y * scale) as real, scale);
  }

  lemma {:induction false} ExactUnits(x: real, k: int, scale: real)
    requires scale > 0.0 && x * scale == k as real
    ensures Round(x, scale) == k as real / scale
  {
    RoundIntExact(k);
  }

  /** A multiple of the unit is its own rounding. */
  lemma {:induction false} Exact(k: int, scale: real)
    requires scale > 0.0
    ensures Round(k as real / scale, scale) == k as real / scale
  {
    OverTimes(k as real, scale);
    ExactUnits(k as real / scale, k, scale);
  }

  /** Rounding moves a value by at most half a unit. */
  lemma {:induction false} Near(x: real, scale: real)
    requires scale > 0.0
    ensures -0.5 <= (Round(x, scale) - x) * scale <= 0.5
  {
    RoundIntNear(x * scale);
    OverTimes(RoundInt(x * scale) as real, scale);
    Distribute(Round(x, scale), x, scale);
  }

  lemma {:induction false} Distribute(a: real, b: real, s: real)
    ensures (a - b) * s == a * s - b * s
  {
  }
}
