/** Go's int64 arithmetic on mathematical integers. */
module GoInts {

  const TWO_63: int := 0x8000_0000_0000_0000
  const TWO_64: int := 0x1_0000_0000_0000_0000

  predicate InInt64(x: int) {
    -TWO_63 <= x < TWO_63
  }

  /** The int64 that an addition, subtraction or multiplication with exact result `x` leaves. */
  function Wrap64(x: int): (r: int)
    ensures InInt64(r) && (r - x) % TWO_64 == 0
  {
    var m := x % TWO_64;
    if m < TWO_63 then m else m - TWO_64
  }

  /** The range, and what lies next to it. */
  lemma WrapAround()
    ensures InInt64(9223372036854775807) && Wrap64(9223372036854775807 + 1) == -9223372036854775808
    ensures InInt64(-9223372036854775808) && Wrap64(-9223372036854775808 - 1) == 9223372036854775807
  {}

  lemma WrapIsIdentity(x: int)
    requires InInt64(x)
    ensures Wrap64(x) == x
  {
    if x < 0 {
      assert x % TWO_64 == x + TWO_64;
    }
  }

  /** Go's division, which truncates toward zero. */
  function TruncDiv(x: int, d: int): (q: int)
    requires d > 0
    ensures x >= 0 ==> d * q <= x < d * (q + 1)
    ensures x <= 0 ==> d * (q - 1) < x <= d * q
  {
    if x >= 0 then x / d else -((-x) / d)
  }

  function Abs(x: int): nat { if x < 0 then -x else x }
}
