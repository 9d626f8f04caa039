// Machine integers: the range of an i64, wrap-around, and division that truncates.
module Integers {
  const I64_MAX: int := 0x7FFF_FFFF_FFFF_FFFF
  const I64_MIN: int := -0x8000_0000_0000_0000

  predicate IsI64(n: int) {
    I64_MIN <= n <= I64_MAX
  }

  /** i64 arithmetic without overflow checks. */
  function Wrap(n: int): (r: int)
    ensures IsI64(r)
    ensures IsI64(n) ==> r == n
  {
    var m := n % 0x1_0000_0000_0000_0000;
    if m > I64_MAX then m - 0x1_0000_0000_0000_0000 else m
  }

  /** Rust's `/` truncates toward zero. */
  function TruncDiv(a: int, b: int): int
    requires b > 0
  {
    if a < 0 then -((-a) / b) else a / b
  }

  lemma MultipleOf(b: int, d: int)
    requires b > 0
    ensures d > 0 ==> b * d >= b
    ensures d < 0 ==> b * d <= -b
  {
    if d > 0 { assert b * (d - 1) >= 0; }
    if d < 0 { assert b * (-d - 1) >= 0; }
  }

  /** Division with remainder has one result. */
  lemma QuotientUnique(a: int, b: int, q: int, r: int)
    requires b > 0 && a == b * q + r && 0 <= r < b
    ensures a / b == q && a % b == r
  {
    var d := a / b - q;
    assert a == b * (a / b) + a % b;
    assert b * d == b * (a / b) - b * q;
    MultipleOf(b, d);
  }
}
