/** Arithmetic on reals shared by the trajectory modules. The program computes in double precision; the model
    computes in exact reals. */
module RealArith {

  function Abs(x: real): real {
    if x < 0.0 then -x else x
  }

  /** The least integer at or above x, as C's `ceil`. */
  function Ceil(x: real): (n: int)
    ensures (n - 1) as real < x <= n as real
  {
    -((-x).Floor)
  }

  /** The least natural whose square is at or above x: what `ceil(sqrt(x))` is for a non-negative x. */
  function CeilSqrt(x: real): (n: nat)
    requires 0.0 <= x
    ensures x <= (n * n) as real
    ensures forall k: nat :: k < n ==> (k * k) as real < x
  {
    CeilSqrtFrom(x, 0)
  }

  function CeilSqrtFrom(x: real, start: nat): (n: nat)
    requires forall k: nat :: k < start ==> (k * k) as real < x
    ensures x <= (n * n) as real
    ensures forall k: nat :: k < n ==> (k * k) as real < x
    decreases Ceil(x) - start
  {
    if x <= (start * start) as real then start
    else
      assert start <= start * start;
      CeilSqrtFrom(x, start + 1)
  }

  lemma AbsProduct(x: real, y: real)
    ensures Abs(x * y) == Abs(x) * Abs(y)
  {}

  lemma AbsPositive(w: real)
    ensures 0.0 <= Abs(w)
    ensures w != 0.0 ==> 0.0 < Abs(w)
  {}

  lemma AbsTriangle(x: real, y: real)
    ensures Abs(x + y) <= Abs(x) + Abs(y)
    ensures Abs(x - y) <= Abs(x) + Abs(y)
  {}

  lemma MulMonotone(x: real, y: real, z: real)
    requires x <= y && 0.0 <= z
    ensures x * z <= y * z
  {
    assert 0.0 <= (y - x) * z;
  }

  lemma MulStrict(x: real, y: real, z: real)
    requires x < y && 0.0 < z
    ensures x * z < y * z
  {
    assert 0.0 < (y - x) * z;
  }

  lemma MulNonNegative(x: real, y: real)
    requires 0.0 <= x && 0.0 <= y
    ensures 0.0 <= x * y
  {}

  lemma MulPositive(x: real, y: real, product: real)
    requires 0.0 < x && 0.0 < y && product == x * y
    ensures 0.0 < product
  {}

  lemma MulCancel(x: real, y: real, z: real)
    requires 0.0 < z && x * z <= y * z
    ensures x <= y
  {
    if y < x { MulStrict(y, x, z); }
  }

  lemma MulCancelStrict(x: real, y: real, z: real)
    requires 0.0 < z && x * z < y * z
    ensures x < y
  {
    if y <= x { MulMonotone(y, x, z); }
  }

  /** A quotient compares with q as the numerator does with q times the denominator. */
  lemma QuotientBound(x: real, y: real, q: real)
    requires 0.0 < y
    ensures x / y <= q <==> x <= q * y
    ensures q <= x / y <==> q * y <= x
    ensures 0.0 <= x ==> 0.0 <= x / y
  {
    var z := x / y;
    assert z * y == x;
    if z <= q { MulMonotone(z, q, y); } else { MulStrict(q, z, y); }
    if q <= z { MulMonotone(q, z, y); } else { MulStrict(z, q, y); }
    if z < 0.0 { MulStrict(z, 0.0, y); }
  }

  lemma AbsOf(x: real, y: real, product: real)
    requires product == x * y
    ensures Abs(product) == Abs(x) * Abs(y)
  {}

  lemma OrderOfProducts(x: real, y: real, z: real, xz: real, yz: real)
    requires xz == x * z && yz == y * z && 0.0 < z
    ensures xz <= yz <==> x <= y
  {
    if x <= y { MulMonotone(x, y, z); } else { MulStrict(y, x, z); }
  }

  lemma ProductsInOrder(x: real, y: real, z: real, xz: real, yz: real)
    requires xz == x * z && yz == y * z && 0.0 <= z && x <= y
    ensures xz <= yz
  {
    MulMonotone(x, y, z);
  }

  lemma Reassociate(x: real, y: real, z: real)
    ensures x * y * z == x * (y * z)
  {}

  lemma Distribute(x: real, y: real, z: real)
    ensures x * z - y * z == (x - y) * z
    ensures x * z + y * z == (x + y) * z
  {}

  lemma SumIsNoLonger(sum: real, x: real, y: real)
    requires sum == x + y
    ensures Abs(sum) <= Abs(x) + Abs(y)
  {}

  lemma AbsScaled(c: real, x: real, product: real)
    requires 0.0 <= c && product == c * x
    ensures Abs(product) == c * Abs(x)
  {
    AbsOf(c, x, product);
  }
}
