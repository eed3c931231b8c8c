/** The parts of JavaScript's number handling the core relies on, over
    exact reals: `Math.round`, `Math.ceil`, `Math.abs`, the truncation
    `new Date(ms)` applies to a fractional time value, and the
    `Math.max(lo, Math.min(hi, x))` clamp. */
module JsMath {

  /** `Math.round(x)`: the nearest integer, a half rounded up. */
  function Round(x: real): (r: int)
    ensures x - 0.5 < r as real <= x + 0.5
  {
    (x + 0.5).Floor
  }

  /** `Math.ceil(x)`: the least integer not below `x`. */
  function Ceil(x: real): (r: int)
    ensures x <= r as real < x + 1.0
  {
    if x.Floor as real == x then x.Floor else x.Floor + 1
  }

  /** The time value `new Date(ms)` keeps: `ms` truncated toward zero. */
  function Trunc(x: real): (r: int)
    ensures x >= 0.0 ==> x - 1.0 < r as real <= x
    ensures x < 0.0 ==> x <= r as real < x + 1.0
  {
    if x >= 0.0 then x.Floor else -((-x).Floor)
  }

  function Abs(x: real): (r: real)
    ensures r >= 0.0 && (r == x || r == -x)
  {
    if x < 0.0 then -x else x
  }

  function Min(a: int, b: int): int {
    if a < b then a else b
  }

  function Max(a: int, b: int): int {
    if a > b then a else b
  }

  /** `Math.max(lo, Math.min(hi, x))`: `x` held inside `[lo, hi]`. */
  function Clamp(x: int, lo: int, hi: int): (r: int)
    requires lo <= hi
    ensures lo <= r <= hi
    ensures lo <= x <= hi ==> r == x
    ensures x < lo ==> r == lo
    ensures x > hi ==> r == hi
  {
    Max(lo, Min(hi, x))
  }

  /** A whole number is its own rounding, ceiling and truncation. */
  lemma WholeNumbers(k: int)
    ensures Round(k as real) == k && Ceil(k as real) == k && Trunc(k as real) == k
  {
  }
}
