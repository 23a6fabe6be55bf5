/**
 The few JavaScript numeric operations the monitor relies on, stated over
 mathematical reals and integers: the remainder operator `%` (whose result
 takes the sign of the dividend), `Math.floor` of a quotient, `Math.PI`, and
 `Math.sin`, of which only the bound [-1, 1] is modelled.
 */
module JsNumbers {

  /** `Math.PI`: the exact value of the double closest to pi. */
  const PI: real := 3.141592653589793115997963468544185161590576171875

  /** A stand-in for `Math.sin`: any function whose values stay in [-1, 1]. */
  type Sine = f: real -> real | forall x :: -1.0 <= f(x) <= 1.0
    witness (x: real) => 0.0

  /** JavaScript's `x % 1.0`: the fractional part, carrying the sign of `x`. */
  function Mod1(x: real): (r: real)
    ensures 0.0 <= x ==> 0.0 <= r < 1.0
    ensures x < 0.0 ==> -1.0 < r <= 0.0
    ensures 0.0 <= x ==> r == x - x.Floor as real
  {
    if 0.0 <= x then x - x.Floor as real else x + (-x).Floor as real
  }

  /** JavaScript's `a % m` on integers (truncating division). */
  function Rem(a: int, m: int): (r: int)
    requires 0 < m
    ensures 0 <= a ==> 0 <= r < m
    ensures a < 0 ==> -m < r <= 0
    ensures (a - r) % m == 0
  {
    DividendMinusRemainder(a, m);
    DividendMinusRemainder(-a, m);
    if 0 <= a then a % m else -((-a) % m)
  }

  /** Taking away the remainder leaves a multiple, also after negating both. */
  lemma DividendMinusRemainder(a: int, m: int)
    requires 0 < m
    ensures (a - a % m) % m == 0
    ensures (-(a - a % m)) % m == 0
  {
    assert a - a % m == (a / m) * m;
    MultipleMod(a / m, m);
    assert -(a - a % m) == (-(a / m)) * m;
    MultipleMod(-(a / m), m);
  }

  /** A multiple of `m` leaves no remainder. */
  lemma MultipleMod(q: int, m: int)
    requires 0 < m
    ensures (q * m) % m == 0
  {
    var x := q * m;
    var d := q - x / m;
    assert x % m == m * d by {
      assert x == m * (x / m) + x % m;
      assert q * m - m * (x / m) == m * (q - x / m);
    }
    ProductBounds(m, d);
  }

  /** A positive factor keeps a non-zero integer factor's product at least that large. */
  lemma ProductBounds(m: int, d: int)
    requires 0 < m
    ensures 1 <= d ==> m <= m * d
    ensures d <= -1 ==> m * d <= -m
  {
    if 1 <= d {
      assert m * d == m + m * (d - 1);
    }
    if d <= -1 {
      assert m * d == -m + m * (d + 1);
    }
  }

  /** On non-negative reals `% 1.0` is periodic with period one. */
  lemma Mod1Periodic(x: real)
    requires 0.0 <= x
    ensures Mod1(x + 1.0) == Mod1(x)
  {
  }

  /** A value already in [0, 1) is left as it is by `% 1.0`. */
  lemma Mod1OfUnit(x: real)
    requires 0.0 <= x < 1.0
    ensures Mod1(x) == x
  {
  }
}
