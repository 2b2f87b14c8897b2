/** Division with remainder is unique; stated once so that no other proof searches for quotients. */
module DivMod {

  lemma ModIs(x: int, d: int, q: int, r: int)
    requires d > 0 && 0 <= r < d && x == d * q + r
    ensures x / d == q && x % d == r
  {
    var k := x / d - q;
    assert d * k == r - x % d;
    MulBound(d, k);
  }

  lemma MulBound(d: int, k: int)
    requires d > 0
    ensures k > 0 ==> d * k >= d
    ensures k < 0 ==> d * k <= -d
  {
  }

  lemma DivIs(x: int, d: int)
    requires d > 0
    ensures x == d * (x / d) + x % d
  {
  }

  /** Adding multiples of the divisor changes no remainder. */
  lemma ModShift(x: int, d: int, m: int)
    requires d > 0
    ensures (x + d * m) % d == x % d
  {
    ModIs(x + d * m, d, x / d + m, x % d);
  }
}
