/** Python's integer conversions of floating-point values, over exact reals. */
module Numeric {

  /** `int(x)` in Python: truncation toward zero. */
  function Trunc(x: real): (r: int)
    ensures 0.0 <= x ==> 0 <= r && r as real <= x < r as real + 1.0
    ensures x < 0.0 ==> r <= 0 && r as real - 1.0 < x <= r as real
  {
    if x >= 0.0 then x.Floor else -((-x).Floor)
  }

  /** `math.ceil(x)` / `np.ceil(x)`: the least integer not below `x`. */
  function Ceil(x: real): (r: int)
    ensures x <= r as real < x + 1.0
  {
    -((-x).Floor)
  }

  /** Every index below `ceil(x / w)` starts a step of width `w` that begins before `x`. */
  lemma CeilSteps(x: real, w: real, i: int)
    requires w > 0.0 && 0 <= i < Ceil(x / w)
    ensures i as real * w < x
  {
    assert (i as real) < x / w;
    assert (i as real) * w < (x / w) * w;
  }
}
