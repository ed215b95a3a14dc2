/** Fixed-width machine arithmetic written out over unbounded integers. */
module Words {

  const TWO8: int := 0x100
  const TWO16: int := 0x1_0000
  const TWO24: int := 0x100_0000
  const TWO31: int := 0x8000_0000
  const TWO32: int := 0x1_0000_0000
  const TWO64: int := 0x1_0000_0000_0000_0000

  /** `(int)(unsigned)x`: the signed 32-bit value congruent to x modulo 2^32. */
  function Int32(x: int): (r: int)
    ensures -TWO31 <= r < TWO31
    ensures -TWO31 <= x < TWO31 ==> r == x
    ensures TWO31 <= x < TWO31 + TWO32 ==> r == x - TWO32
    ensures -TWO31 - TWO32 <= x < -TWO31 ==> r == x + TWO32
  {
    (x + TWO31) % TWO32 - TWO31
  }

  /** `(uint64_t)x`. */
  function Wrap64(x: int): (r: int)
    ensures 0 <= r < TWO64
    ensures 0 <= x < TWO64 ==> r == x
    ensures -TWO64 <= x < 0 ==> r == x + TWO64
    ensures TWO64 <= x < 2 * TWO64 ==> r == x - TWO64
  {
    x % TWO64
  }

  /** `(unsigned)x`. */
  function Wrap32(x: int): (r: int)
    ensures 0 <= r < TWO32
    ensures 0 <= x < TWO32 ==> r == x
  {
    x % TWO32
  }

  function Min(a: int, b: int): int { if a <= b then a else b }

  function Max(a: int, b: int): int { if a >= b then a else b }

  /** Quotient and remainder are determined by x == d * q + r with 0 <= r < d. */
  lemma DivModUnique(x: int, d: int, q: int, r: int)
    requires d > 0 && x == d * q + r && 0 <= r < d
    ensures x / d == q && x % d == r
  {
    var q', r' := x / d, x % d;
    assert x == d * q' + r' && 0 <= r' < d;
    assert d * (q - q') == r' - r;
    if q > q' {
      MulAtLeast(d, q - q');
    } else if q < q' {
      MulAtLeast(d, q' - q);
    }
  }

  lemma MulAtLeast(d: int, k: int)
    requires d > 0 && k > 0
    ensures d * k >= d
  {
  }

  lemma MulAssoc(a: int, b: int, c: int)
    ensures (a * b) * c == a * (b * c)
  {
  }

  lemma MulMono(d: int, i: int, j: int)
    requires d > 0 && i <= j
    ensures d * i <= d * j
  {
  }

  /** Adding a multiple of d does not change the remainder. */
  lemma ModShift(x: int, d: int, k: int)
    requires d > 0
    ensures (x + d * k) % d == x % d
  {
    assert x == d * (x / d) + x % d;
    assert x + d * k == d * (x / d + k) + x % d;
    DivModUnique(x + d * k, d, x / d + k, x % d);
  }
}
