/** Integer clock arithmetic. Times are whole milliseconds; the source's
    floating-point `Date` arithmetic on such values is exact. */
module Clock {

  /** `Math.ceil(a / b)` on integers. */
  function CeilDiv(a: int, b: int): (r: int)
    requires b > 0
    ensures (r - 1) * b < a <= r * b
  {
    var q := (-a) / b;
    assert -a == q * b + (-a) % b;
    -q
  }
}
