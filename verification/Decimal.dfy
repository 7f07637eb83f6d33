/** Fixed-point numbers with eighteen fraction digits, represented by their unscaled integer. */
module Decimal {

  /** The unscaled value of 1. */
  const SCALE: int := 1_000_000_000_000_000_000

  function FromInt(n: int): int {
    n * SCALE
  }

  /** Product rounded towards minus infinity: the divisor is positive, so Euclidean division floors. */
  function Mul(a: int, b: int): int {
    a * b / SCALE
  }

  /** Quotient by Euclidean division; zero when the divisor is zero. */
  function Div(a: int, b: int): int {
    if b == 0 then 0 else a * SCALE / b
  }

  function Mod(a: int, b: int): int {
    if b == 0 then 0 else a % b
  }

  function Min(a: int, b: int): int {
    if a <= b then a else b
  }

  function Max(a: int, b: int): int {
    if a >= b then a else b
  }

  /** Mul is the largest fixed-point number that does not exceed the exact product. */
  lemma MulIsFloor(a: int, b: int)
    ensures Mul(a, b) * SCALE <= a * b < Mul(a, b) * SCALE + SCALE
  {
  }

  /** A number is at most the floored product exactly when its exact value is at most the exact product. */
  lemma MulGalois(x: int, a: int, b: int)
    ensures x <= Mul(a, b) <==> x * SCALE <= a * b
  {
    MulIsFloor(a, b);
  }

  /** Multiplying by minus one negates exactly, despite the rounding. */
  lemma MulMinusOne(a: int)
    ensures Mul(a, FromInt(-1)) == -a
  {
    assert a * FromInt(-1) == -a * SCALE;
  }

  /** Cutting a product into two fills loses at most one unit and never gains any. */
  lemma MulSplit(p: int, a: int, b: int)
    ensures Mul(p, a) + Mul(p, b) <= Mul(p, a + b) <= Mul(p, a) + Mul(p, b) + 1
  {
    assert p * (a + b) == p * a + p * b;
    MulIsFloor(p, a);
    MulIsFloor(p, b);
    MulIsFloor(p, a + b);
  }

  lemma MulMonotone(p: int, a: int, b: int)
    requires p >= 0 && a <= b
    ensures Mul(p, a) <= Mul(p, b)
  {
    assert p * a <= p * b;
    MulIsFloor(p, a);
    MulIsFloor(p, b);
  }

  lemma MulAntitone(p: int, a: int, b: int)
    requires p <= 0 && a <= b
    ensures Mul(p, a) >= Mul(p, b)
  {
    assert p * a >= p * b;
    MulIsFloor(p, a);
    MulIsFloor(p, b);
  }

  /** A product with a positive quantity has the sign of the price. */
  lemma SignOfProduct(price: int, quantity: int)
    requires quantity > 0
    ensures Mul(price, quantity) >= 0 <==> price >= 0
  {
    if price >= 0 {
      assert price * quantity >= 0;
    } else {
      assert price * quantity < 0;
    }
    MulIsFloor(price, quantity);
  }

  /** For a positive divisor, Div is the floor of the exact quotient. */
  lemma DivIsFloor(a: int, b: int)
    requires b > 0
    ensures Div(a, b) * b <= a * SCALE < Div(a, b) * b + b
  {
  }

  /** A negative divisor rounds the quotient up instead: the remainder is never negative. */
  lemma DivRemainder(a: int, b: int)
    requires b != 0
    ensures 0 <= a * SCALE - Div(a, b) * b < if b > 0 then b else -b
  {
  }

  /** The remainder by any divisor, and zero when there is none. */
  lemma ModIsRemainder(a: int, b: int)
    ensures b == 0 ==> Mod(a, b) == 0
    ensures b != 0 ==> 0 <= Mod(a, b) < (if b > 0 then b else -b) && (a - Mod(a, b)) == a / b * b
  {
  }

  lemma StrictMultiple(a: int, b: int, d: int)
    requires a < b && d > 0
    ensures a * d + d <= b * d
  {
    NonNegativeProduct(b - a - 1, d);
    assert (b - a - 1) * d == b * d - a * d - d;
  }

  lemma NonNegativeProduct(a: int, b: int)
    requires a >= 0 && b >= 0
    ensures a * b >= 0
  {
  }

  lemma DivUnique(n: int, d: int, q: int, r: int)
    requires d > 0 && n == q * d + r && 0 <= r < d
    ensures n / d == q
  {
    var e, s := n / d, n % d;
    assert e * d + s == n;
    if e > q {
      StrictMultiple(q, e, d);
    } else if e < q {
      StrictMultiple(e, q, d);
    }
  }

  lemma MultipleMod(k: int, m: int)
    requires m > 0
    ensures (k * m) % m == 0
  {
    DivUnique(k * m, m, k, 0);
  }
}
