/** The arithmetic of one cubic-eased segment: sample i of n sits at the fraction Ease(i, n) of the segment. */
module SplineMath {
  import opened RealArith

  /** t*t*(3-2*t) at t = i/n. */
  function Ease(i: int, n: nat): real
    requires 0 < n
  {
    var t := i as real / n as real;
    t * t * (3.0 - 2.0 * t)
  }

  function EaseStep(i: int, n: nat): real
    requires 0 < n
  {
    Ease(i + 1, n) - Ease(i, n)
  }

  lemma EaseCleared(i: int, n: nat)
    requires 0 < n
    ensures Ease(i, n) * (n as real * n as real * n as real)
         == i as real * i as real * (3.0 * n as real - 2.0 * i as real)
  {
    var t, m, x := i as real / n as real, n as real, i as real;
    assert t * m == x;
    calc {
      Ease(i, n) * (m * m * m);
      (t * t * (3.0 - 2.0 * t)) * (m * m * m);
      (t * m) * (t * m) * ((3.0 - 2.0 * t) * m);
      (t * m) * (t * m) * (3.0 * m - 2.0 * (t * m));
    }
  }

  lemma EaseEnds(n: nat)
    requires 0 < n
    ensures Ease(0, n) == 0.0 && Ease(n, n) == 1.0
  {
    assert n as real / n as real == 1.0;
  }

  lemma EaseStepCleared(i: int, n: nat)
    requires 0 < n
    ensures EaseStep(i, n) * (n as real * n as real * n as real)
         == 6.0 * n as real * i as real + 3.0 * n as real - 6.0 * i as real * i as real - 6.0 * i as real - 2.0
  {
    EaseCleared(i, n);
    EaseCleared(i + 1, n);
    var m, x := n as real, i as real;
    assert (i + 1) as real == x + 1.0;
    calc {
      EaseStep(i, n) * (m * m * m);
      (x + 1.0) * (x + 1.0) * (3.0 * m - 2.0 * (x + 1.0)) - x * x * (3.0 * m - 2.0 * x);
      6.0 * m * x + 3.0 * m - 6.0 * x * x - 6.0 * x - 2.0;
    }
  }

  /** The cleared step, as a polynomial. */
  function StepPolynomial(x: real, m: real): real {
    6.0 * m * x + 3.0 * m - 6.0 * x * x - 6.0 * x - 2.0
  }

  lemma StepPolynomialBounds(x: real, m: real)
    requires 0.0 <= x <= m - 1.0
    ensures 0.0 <= StepPolynomial(x, m)
    ensures 2.0 * StepPolynomial(x, m) <= 3.0 * (m * m)
  {
    MulNonNegative(x, m - x - 1.0);
    assert StepPolynomial(x, m) == 6.0 * (x * (m - x - 1.0)) + 3.0 * m - 2.0;
    var r := m - 2.0 * x - 1.0;
    assert 3.0 * (m * m) - 2.0 * StepPolynomial(x, m) == 3.0 * (r * r) + 1.0;
    assert 0.0 <= r * r;
  }

  /** The eased curve never falls, and never climbs faster than 3/2 of the straight line. */
  lemma EaseStepBounds(i: int, n: nat)
    requires 0 <= i < n
    ensures 0.0 <= EaseStep(i, n)
    ensures 2.0 * n as real * EaseStep(i, n) <= 3.0
  {
    hide Ease, EaseStep;
    var m, e := n as real, EaseStep(i, n);
    EaseStepCleared(i, n);
    StepPolynomialBounds(i as real, m);
    Uncube(e, m, StepPolynomial(i as real, m));
  }

  lemma Uncube(e: real, m: real, d: real)
    requires 0.0 < m && e * (m * m * m) == d && 0.0 <= d && 2.0 * d <= 3.0 * (m * m)
    ensures 0.0 <= e && 2.0 * m * e <= 3.0
  {
    MulCancel(0.0, e, m * m * m);
    assert (2.0 * m * e) * (m * m) == 2.0 * (e * (m * m * m));
    MulCancel(2.0 * m * e, 3.0, m * m);
  }

  function EaseBend(i: int, n: nat): real
    requires 0 < n
  {
    EaseStep(i, n) - EaseStep(i - 1, n)
  }

  /** Inside a segment the second difference stays within 6/n^2 of the displacement. */
  lemma EaseBendBounds(i: int, n: nat)
    requires 1 <= i < n
    ensures Abs(EaseBend(i, n)) * (n as real * n as real) <= 6.0
  {
    hide Ease, EaseStep;
    var m, x, bend := n as real, i as real, EaseBend(i, n);
    EaseStepCleared(i, n);
    EaseStepCleared(i - 1, n);
    assert (i - 1) as real == x - 1.0;
    assert StepPolynomial(x, m) - StepPolynomial(x - 1.0, m) == 6.0 * m - 12.0 * x;
    assert bend * (m * m * m) == 6.0 * m - 12.0 * x;
    assert (bend * (m * m)) * m == 6.0 * m - 12.0 * x;
    BendRange(bend * (m * m), m, x);
    AbsProduct(bend, m * m);
  }

  lemma BendRange(b: real, m: real, x: real)
    requires 0.0 < m && 0.0 <= x <= m && b * m == 6.0 * m - 12.0 * x
    ensures Abs(b) <= 6.0
  {
    MulCancel(b, 6.0, m);
    assert -b * m <= 6.0 * m;
    MulCancel(-b, 6.0, m);
  }

  /** A segment starts and ends with a step of at most 3/n^2 of the displacement. */
  lemma EaseEndSteps(n: nat)
    requires 0 < n
    ensures 0.0 <= EaseStep(0, n) && EaseStep(0, n) * (n as real * n as real) <= 3.0
    ensures 0.0 <= EaseStep(n - 1, n) && EaseStep(n - 1, n) * (n as real * n as real) <= 3.0
  {
    hide Ease, EaseStep;
    var m := n as real;
    EaseStepBounds(0, n);
    EaseStepBounds(n - 1, n);
    EaseStepCleared(0, n);
    EaseStepCleared(n - 1, n);
    assert (n - 1) as real == m - 1.0;
    assert StepPolynomial(0.0, m) == 3.0 * m - 2.0;
    assert StepPolynomial(m - 1.0, m) == 3.0 * m - 2.0;
    assert (EaseStep(0, n) * (m * m)) * m == EaseStep(0, n) * (m * m * m);
    assert (EaseStep(n - 1, n) * (m * m)) * m == EaseStep(n - 1, n) * (m * m * m);
    MulCancel(EaseStep(0, n) * (m * m), 3.0, m);
    MulCancel(EaseStep(n - 1, n) * (m * m), 3.0, m);
  }

  lemma EaseWithinUnit(i: int, n: nat)
    requires 0 <= i <= n && 0 < n
    ensures 0.0 <= Ease(i, n) <= 1.0
    decreases n - i
  {
    if i == n {
      EaseEnds(n);
    } else {
      EaseStepBounds(i, n);
      EaseWithinUnit(i + 1, n);
      EaseNonNegative(i, n);
    }
  }

  lemma EaseNonNegative(i: int, n: nat)
    requires 0 <= i <= n && 0 < n
    ensures 0.0 <= Ease(i, n)
  {
    if i == 0 {
      EaseEnds(n);
    } else {
      EaseNonNegative(i - 1, n);
      EaseStepBounds(i - 1, n);
    }
  }

  /** Enough ticks for a displacement d: `n` ticks at frequency `f` last at least 3d/2v and sqrt(6d/a) seconds. */
  predicate EnoughTicks(n: nat, d: real, v: real, a: real, f: real) {
    EnoughForSpeed(n, d, v, f) && EnoughForAccel(n, d, a, f)
  }

  predicate EnoughForSpeed(n: nat, d: real, v: real, f: real) {
    3.0 * Abs(d) * f <= n as real * (2.0 * v)
  }

  predicate EnoughForAccel(n: nat, d: real, a: real, f: real) {
    6.0 * Abs(d) * (f * f) <= n as real * n as real * a
  }

  /** What that means: the eased curve is at most 3/2 as fast as the straight line, and bends by at most 6 displacements
      over the square of the time. */
  lemma EnoughTicksMeans(n: nat, d: real, v: real, a: real, f: real)
    ensures EnoughTicks(n, d, v, a, f) <==>
      && 3.0 * Abs(d) * f <= n as real * (2.0 * v)
      && 6.0 * Abs(d) * (f * f) <= n as real * n as real * a
  {}

  /** If e is at most c/n^2 of anything, then e*d*f^2 is at most (c/6) a. */
  lemma ScaledAcceleration(e: real, c: real, n: nat, d: real, a: real, f: real)
    requires 0 < n && 0.0 <= c && Abs(e) * (n as real * n as real) <= c
    requires 6.0 * Abs(d) * (f * f) <= n as real * n as real * a
    ensures 6.0 * (Abs(e * d) * (f * f)) <= c * a
  {
    AbsProduct(e, d);
    ScaledBend(Abs(e), c, n as real * n as real, Abs(d) * (f * f), a);
    assert Abs(e) * Abs(d) * (f * f) == Abs(e) * (Abs(d) * (f * f));
  }

  lemma ScaledBend(e: real, c: real, m2: real, y: real, a: real)
    requires 0.0 < m2 && 0.0 <= e && 0.0 <= c && 0.0 <= y && e * m2 <= c && 6.0 * y <= m2 * a
    ensures 6.0 * (e * y) <= c * a
  {
    MulMonotone(6.0 * y, m2 * a, e);
    MulCancel(0.0, a, m2);
    MulMonotone(e * m2, c, a);
    assert e * (m2 * a) == (e * m2) * a;
  }

  /** If e is at most 3/2n of anything, then e*d*f is at most v. */
  lemma ScaledSpeed(e: real, m: real, y: real, v: real)
    requires 0.0 < m && 0.0 <= y && 2.0 * m * e <= 3.0 && 3.0 * y <= m * (2.0 * v)
    ensures e * y <= v
  {
    MulMonotone(2.0 * m * e, 3.0, y);
    assert (2.0 * m * e) * y == (e * y) * (2.0 * m);
    MulCancel(e * y, v, 2.0 * m);
  }

  lemma SegmentSpeed(i: int, n: nat, d: real, v: real, a: real, f: real)
    requires 0 <= i < n && 0.0 < f && EnoughTicks(n, d, v, a, f)
    ensures Abs(EaseStep(i, n) * d) * f <= v
  {
    hide Ease, EaseStep;
    var e := EaseStep(i, n);
    EaseStepBounds(i, n);
    assert 3.0 * (Abs(d) * f) == 3.0 * Abs(d) * f;
    ScaledSpeed(e, n as real, Abs(d) * f, v);
    AbsProduct(e, d);
    assert Abs(e) * Abs(d) * f == e * (Abs(d) * f);
  }

  lemma SegmentAcceleration(i: int, n: nat, d: real, v: real, a: real, f: real)
    requires 1 <= i < n && 0.0 < f && EnoughTicks(n, d, v, a, f)
    ensures Abs(EaseBend(i, n) * d) * (f * f) <= a
  {
    hide Ease, EaseStep, EaseBend;
    EaseBendBounds(i, n);
    ScaledAcceleration(EaseBend(i, n), 6.0, n, d, a, f);
  }

  /** The first and the last step of a segment use at most half of the acceleration limit. */
  lemma SegmentEnds(n: nat, d: real, v: real, a: real, f: real)
    requires 0 < n && 0.0 < f && EnoughTicks(n, d, v, a, f)
    ensures Abs(EaseStep(0, n) * d) * (f * f) <= a / 2.0
    ensures Abs(EaseStep(n - 1, n) * d) * (f * f) <= a / 2.0
  {
    hide Ease, EaseStep;
    EaseEndSteps(n);
    ScaledAcceleration(EaseStep(0, n), 3.0, n, d, a, f);
    ScaledAcceleration(EaseStep(n - 1, n), 3.0, n, d, a, f);
  }
}
