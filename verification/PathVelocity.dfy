/** The feasibility test of the time-optimal planner (HuboPath/interpolation/Trajectory.cpp).

    Along a path with tangent c' and curvature c'', joint i accelerates by c'[i]*acc + c''[i]*vel^2. The program returns
    path velocities as square roots; the model keeps their squares. */
module PathVelocity {
  import opened RealArith

  /** A minimum that starts from infinity, or from the largest double standing for it. */
  datatype Bound = Unbounded | Finite(value: real)

  predicate Below(x: real, bound: Bound) {
    bound.Finite? ==> x <= bound.value
  }

  /** C++'s `min` of a bound and a candidate. */
  function Lower(bound: Bound, candidate: real): Bound {
    if bound.Finite? && bound.value <= candidate then bound else Finite(candidate)
  }

  /** Tangent, curvature and acceleration limits at one point of a path. */
  datatype Shape = Shape(tangent: seq<real>, curvature: seq<real>, maxAcceleration: seq<real>) {

    predicate Valid() {
      && |tangent| == |curvature| == |maxAcceleration|
      && forall i :: 0 <= i < |maxAcceleration| ==> 0.0 <= maxAcceleration[i]
    }

    /** Joint i moves along the path at this point. */
    predicate Moves(i: nat)
      requires Valid() && i < |tangent|
    {
      tangent[i] != 0.0
    }

    /** Joint i can follow the path at this squared velocity and acceleration. */
    predicate JointFeasible(i: nat, vel2: real, acc: real)
      requires Valid() && i < |tangent|
    {
      Abs(tangent[i] * acc + curvature[i] * vel2) <= maxAcceleration[i]
    }

    predicate Feasible(vel2: real, acc: real)
      requires Valid()
    {
      forall i :: 0 <= i < |tangent| ==> JointFeasible(i, vel2, acc)
    }

    /** How far joint i's limit lets the path accelerate. */
    function Reach(i: nat): (reach: real)
      requires Valid() && i < |tangent| && Moves(i)
      ensures 0.0 <= reach
    {
      QuotientSign(maxAcceleration[i], Abs(tangent[i]));
      maxAcceleration[i] / Abs(tangent[i])
    }

    /** Path acceleration that joint i spends on the curvature, per squared velocity. */
    function Pull(i: nat): real
      requires Valid() && i < |tangent| && Moves(i)
    {
      curvature[i] / tangent[i]
    }
  }

  lemma QuotientSign(x: real, y: real)
    requires 0.0 <= x && 0.0 < y
    ensures 0.0 <= x / y && x / y * y == x
  {
    var q := x / y;
    assert q * y == x;
    assert q < 0.0 ==> q * y < 0.0;
  }

  // ----- Acceleration bounds at a given velocity -----

  /** What joint i allows: at most this acceleration, or, for the minimum, at most this deceleration. */
  function JointBound(shape: Shape, i: nat, vel: real, max: bool): real
    requires shape.Valid() && i < |shape.tangent| && shape.Moves(i)
  {
    shape.Reach(i) - Spent(if max then 1.0 else -1.0, shape.curvature[i], vel, shape.tangent[i])
  }

  /** Path acceleration that the curvature takes away at this velocity. */
  function Spent(factor: real, curvature: real, vel: real, tangent: real): real
    requires tangent != 0.0
  {
    factor * curvature * vel * vel / tangent
  }

  /** The tightest bound among the first k joints. */
  function BoundBelow(shape: Shape, k: nat, vel: real, max: bool): Bound
    requires shape.Valid() && k <= |shape.tangent|
  {
    if k == 0 then Unbounded
    else if shape.Moves(k - 1) then Lower(BoundBelow(shape, k - 1, vel, max), JointBound(shape, k - 1, vel, max))
    else BoundBelow(shape, k - 1, vel, max)
  }

  /** The largest acceleration the joints allow, or the smallest; absent when no joint moves. */
  function MinMaxAcceleration(shape: Shape, vel: real, max: bool): Bound
    requires shape.Valid()
  {
    var bound := BoundBelow(shape, |shape.tangent|, vel, max);
    if max || bound.Unbounded? then bound else Finite(-bound.value)
  }

  method GetMinMaxPathAcceleration(shape: Shape, vel: real, max: bool) returns (acceleration: Bound)
    requires shape.Valid()
    ensures acceleration == MinMaxAcceleration(shape, vel, max)
  {
    hide JointBound;
    var bound := Unbounded;
    var i := 0;
    while i < |shape.tangent|
      invariant 0 <= i <= |shape.tangent|
      invariant bound == BoundBelow(shape, i, vel, max)
    {
      if shape.tangent[i] != 0.0 {
        bound := Lower(bound, JointBound(shape, i, vel, max));
      }
      i := i + 1;
    }
    if max || bound.Unbounded? {
      return bound;
    }
    return Finite(-bound.value);
  }

  lemma JointBoundMeans(shape: Shape, i: nat, vel: real, max: bool)
    requires shape.Valid() && i < |shape.tangent| && shape.Moves(i)
    ensures JointBound(shape, i, vel, true) == shape.Reach(i) - shape.Pull(i) * (vel * vel)
    ensures JointBound(shape, i, vel, false) == shape.Reach(i) + shape.Pull(i) * (vel * vel)
  {
    hide Spent;
    QuotientMoves(1.0, shape.curvature[i], vel, shape.tangent[i]);
    QuotientMoves(-1.0, shape.curvature[i], vel, shape.tangent[i]);
  }

  lemma QuotientMoves(factor: real, c: real, vel: real, t: real)
    requires t != 0.0
    ensures Spent(factor, c, vel, t) == factor * (c / t * (vel * vel))
  {
    var q := c / t;
    assert q * t == c;
    SameQuotient(factor * c * vel * vel, t, factor * (q * (vel * vel)));
  }

  lemma SameQuotient(x: real, t: real, q: real)
    requires t != 0.0 && q * t == x
    ensures x / t == q
  {}

  /** A moving joint is feasible exactly between its two bounds. */
  lemma JointFeasibleIffBetween(shape: Shape, i: nat, vel: real, acc: real)
    requires shape.Valid() && i < |shape.tangent| && shape.Moves(i)
    ensures shape.JointFeasible(i, vel * vel, acc) <==>
      acc <= JointBound(shape, i, vel, true) && -acc <= JointBound(shape, i, vel, false)
  {
    hide JointBound;
    JointBoundMeans(shape, i, vel, true);
    ScaledInterval(shape.tangent[i], shape.curvature[i], shape.maxAcceleration[i], vel * vel, acc,
                   shape.Reach(i), shape.Pull(i));
  }

  lemma ScaledInterval(t: real, c: real, a: real, q: real, acc: real, reach: real, pull: real)
    requires t != 0.0 && reach * Abs(t) == a && pull * t == c
    ensures Abs(t * acc + c * q) <= a <==> -reach <= acc + pull * q <= reach
  {
    var x, tx := acc + pull * q, t * acc + c * q;
    PulledOut(t, c, q, acc, pull, tx, x);
    WithinReach(t, x, tx, reach, a);
  }

  lemma PulledOut(t: real, c: real, q: real, acc: real, pull: real, tx: real, x: real)
    requires pull * t == c && tx == t * acc + c * q && x == acc + pull * q
    ensures tx == t * x
  {
    assert pull * t * q == t * (pull * q);
  }

  lemma WithinReach(t: real, x: real, tx: real, reach: real, a: real)
    requires t != 0.0 && reach * Abs(t) == a && tx == t * x
    ensures Abs(tx) <= a <==> -reach <= x <= reach
  {
    AbsOf(x, t, tx);
    AbsWithin(x, reach);
    AbsPositive(t);
    hide Abs;
    OrderOfProducts(Abs(x), reach, Abs(t), Abs(tx), a);
  }

  lemma AbsWithin(x: real, reach: real)
    ensures Abs(x) <= reach <==> -reach <= x <= reach
  {}

  /** The tightest bound is one joint's bound, and no joint's bound is tighter. */
  lemma {:induction false} BoundIsAttained(shape: Shape, k: nat, vel: real, max: bool) returns (tight: nat)
    requires shape.Valid() && k <= |shape.tangent|
    ensures var bound := BoundBelow(shape, k, vel, max);
      && (bound.Finite? ==> tight < k && shape.Moves(tight) && bound.value == JointBound(shape, tight, vel, max))
      && (forall i :: 0 <= i < k && shape.Moves(i) ==> bound.Finite? && bound.value <= JointBound(shape, i, vel, max))
  {
    hide JointBound;
    tight := 0;
    if 0 < k {
      tight := BoundIsAttained(shape, k - 1, vel, max);
      if BoundBelow(shape, k, vel, max) != BoundBelow(shape, k - 1, vel, max) {
        tight := k - 1;
      }
    }
  }

  predicate Between(acc: real, low: Bound, high: Bound) {
    (low.Finite? ==> low.value <= acc) && (high.Finite? ==> acc <= high.value)
  }

  /** The computed minimum and maximum are exact: an acceleration lies between them exactly when every moving joint can
      follow it. */
  lemma MinMaxIsExact(shape: Shape, vel: real, vel2: real, acc: real)
    requires shape.Valid() && vel2 == vel * vel
    ensures Between(acc, MinMaxAcceleration(shape, vel, false), MinMaxAcceleration(shape, vel, true)) <==>
      forall i :: 0 <= i < |shape.tangent| && shape.Moves(i) ==> shape.JointFeasible(i, vel2, acc)
  {
    hide JointBound, Shape.JointFeasible;
    var high := BoundIsAttained(shape, |shape.tangent|, vel, true);
    var low := BoundIsAttained(shape, |shape.tangent|, vel, false);
    forall i | 0 <= i < |shape.tangent| && shape.Moves(i)
      ensures shape.JointFeasible(i, vel2, acc) <==>
        acc <= JointBound(shape, i, vel, true) && -acc <= JointBound(shape, i, vel, false)
    {
      JointFeasibleIffBetween(shape, i, vel, acc);
    }
  }

  // ----- The acceleration-limited velocity curve -----

  /** Joints i and j can share one path acceleration. */
  predicate Compatible(shape: Shape, i: nat, j: nat, vel2: real)
    requires shape.Valid() && i < |shape.tangent| && j < |shape.tangent|
  {
    shape.Moves(i) && shape.Moves(j) ==>
      Abs(shape.Pull(i) - shape.Pull(j)) * vel2 <= shape.Reach(i) + shape.Reach(j)
  }

  /** A joint that only feels the curvature stays within its limit. */
  predicate Bearable(shape: Shape, i: nat, vel2: real)
    requires shape.Valid() && i < |shape.tangent|
  {
    !shape.Moves(i) ==> Abs(shape.curvature[i]) * vel2 <= shape.maxAcceleration[i]
  }

  /** The tightest bound that joint i and the joints after it up to k put on the squared velocity. */
  function PairBound(shape: Shape, i: nat, k: nat, bound: Bound): Bound
    requires shape.Valid() && i < k <= |shape.tangent| && shape.Moves(i)
  {
    if k == i + 1 then bound
    else
      var before := PairBound(shape, i, k - 1, bound);
      if shape.Moves(k - 1) && shape.Pull(i) - shape.Pull(k - 1) != 0.0 then
        Lower(before, (shape.Reach(i) + shape.Reach(k - 1)) / Abs(shape.Pull(i) - shape.Pull(k - 1)))
      else before
  }

  /** The tightest bound on the squared velocity from pairs whose first joint is below k. */
  function CurveBelow(shape: Shape, k: nat): Bound
    requires shape.Valid() && k <= |shape.tangent|
  {
    if k == 0 then Unbounded
    else if shape.Moves(k - 1) then PairBound(shape, k - 1, |shape.tangent|, CurveBelow(shape, k - 1))
    else if shape.curvature[k - 1] != 0.0 then
      Lower(CurveBelow(shape, k - 1), shape.maxAcceleration[k - 1] / Abs(shape.curvature[k - 1]))
    else CurveBelow(shape, k - 1)
  }

  /** The square of the largest path velocity the acceleration limits allow. */
  method GetAccelerationMaxPathVelocity(shape: Shape) returns (squared: Bound)
    requires shape.Valid()
    ensures squared == CurveBelow(shape, |shape.tangent|)
  {
    hide Shape.Reach, Shape.Pull;
    var n := |shape.tangent|;
    squared := Unbounded;
    var i := 0;
    while i < n
      invariant 0 <= i <= n
      invariant squared == CurveBelow(shape, i)
    {
      if shape.tangent[i] != 0.0 {
        var j := i + 1;
        while j < n
          invariant i < j <= n
          invariant squared == PairBound(shape, i, j, CurveBelow(shape, i))
        {
          if shape.tangent[j] != 0.0 {
            var difference := shape.Pull(i) - shape.Pull(j);
            if difference != 0.0 {
              squared := Lower(squared, (shape.Reach(i) + shape.Reach(j)) / Abs(difference));
            }
          }
          j := j + 1;
        }
      } else if shape.curvature[i] != 0.0 {
        squared := Lower(squared, shape.maxAcceleration[i] / Abs(shape.curvature[i]));
      }
      i := i + 1;
    }
  }

  lemma {:induction false} PairBoundMeans(shape: Shape, i: nat, k: nat, bound: Bound, vel2: real)
    requires shape.Valid() && i < k <= |shape.tangent| && shape.Moves(i) && 0.0 <= vel2
    ensures Below(vel2, PairBound(shape, i, k, bound)) <==>
      Below(vel2, bound) && forall j :: i < j < k ==> Compatible(shape, i, j, vel2)
  {
    hide Compatible;
    if i + 1 < k {
      PairBoundMeans(shape, i, k - 1, bound, vel2);
      PairStep(shape, i, k - 1, PairBound(shape, i, k - 1, bound), vel2);
    }
  }

  lemma PairStep(shape: Shape, i: nat, j: nat, before: Bound, vel2: real)
    requires shape.Valid() && i < j < |shape.tangent| && shape.Moves(i) && 0.0 <= vel2
    ensures
      var after := if shape.Moves(j) && shape.Pull(i) - shape.Pull(j) != 0.0 then
                     Lower(before, (shape.Reach(i) + shape.Reach(j)) / Abs(shape.Pull(i) - shape.Pull(j)))
                   else before;
      Below(vel2, after) <==> Below(vel2, before) && Compatible(shape, i, j, vel2)
  {
    hide Shape.Reach, Shape.Pull;
    if shape.Moves(j) {
      var difference := shape.Pull(i) - shape.Pull(j);
      if difference != 0.0 {
        QuotientBound(shape.Reach(i) + shape.Reach(j), Abs(difference), vel2);
      }
    }
  }

  lemma {:induction false} CurveBelowMeans(shape: Shape, k: nat, vel2: real)
    requires shape.Valid() && k <= |shape.tangent| && 0.0 <= vel2
    ensures Below(vel2, CurveBelow(shape, k)) <==>
      && (forall i, j :: 0 <= i < k && i < j < |shape.tangent| ==> Compatible(shape, i, j, vel2))
      && (forall i :: 0 <= i < k ==> Bearable(shape, i, vel2))
  {
    hide Compatible, PairBound;
    if 0 < k {
      CurveBelowMeans(shape, k - 1, vel2);
      CurveStep(shape, k - 1, vel2);
    }
  }

  lemma CurveStep(shape: Shape, i: nat, vel2: real)
    requires shape.Valid() && i < |shape.tangent| && 0.0 <= vel2
    ensures Below(vel2, CurveBelow(shape, i + 1)) <==>
      && Below(vel2, CurveBelow(shape, i))
      && (forall j :: i < j < |shape.tangent| ==> Compatible(shape, i, j, vel2))
      && Bearable(shape, i, vel2)
  {
    hide PairBound, Shape.Reach, Shape.Pull;
    if shape.Moves(i) {
      PairBoundMeans(shape, i, |shape.tangent|, CurveBelow(shape, i), vel2);
    } else if shape.curvature[i] != 0.0 {
      QuotientBound(shape.maxAcceleration[i], Abs(shape.curvature[i]), vel2);
    }
  }

  /** Two joints are compatible exactly when neither one's minimum exceeds the other's maximum. */
  lemma CompatibleMeans(shape: Shape, i: nat, j: nat, vel: real)
    requires shape.Valid() && i < |shape.tangent| && j < |shape.tangent| && shape.Moves(i) && shape.Moves(j)
    ensures Compatible(shape, i, j, vel * vel) <==>
      && -JointBound(shape, i, vel, false) <= JointBound(shape, j, vel, true)
      && -JointBound(shape, j, vel, false) <= JointBound(shape, i, vel, true)
  {
    hide JointBound, Shape.Reach, Shape.Pull;
    JointBoundMeans(shape, i, vel, true);
    JointBoundMeans(shape, j, vel, true);
    var difference, q := shape.Pull(i) - shape.Pull(j), vel * vel;
    assert 0.0 <= q;
    AbsProduct(difference, q);
    assert difference * q == shape.Pull(i) * q - shape.Pull(j) * q;
  }

  /** Below the curve some path acceleration suits every joint. */
  lemma BelowCurveIsFeasible(shape: Shape, vel: real, vel2: real) returns (acc: real)
    requires shape.Valid() && vel2 == vel * vel && Below(vel2, CurveBelow(shape, |shape.tangent|))
    ensures shape.Feasible(vel2, acc)
    ensures Between(acc, MinMaxAcceleration(shape, vel, false), MinMaxAcceleration(shape, vel, true))
  {
    hide JointBound, Shape.JointFeasible, Compatible;
    var tight := BoundIsAttained(shape, |shape.tangent|, vel, true);
    CurveBelowMeans(shape, |shape.tangent|, vel2);
    var bound := BoundBelow(shape, |shape.tangent|, vel, true);
    acc := if bound.Finite? then bound.value else 0.0;
    forall i | 0 <= i < |shape.tangent|
      ensures shape.JointFeasible(i, vel2, acc)
    {
      if shape.Moves(i) {
        SharedWithTightest(shape, i, tight, vel);
        JointFeasibleIffBetween(shape, i, vel, acc);
      } else {
        StillJointFeasible(shape, i, vel2, acc);
      }
    }
    MinMaxIsExact(shape, vel, vel2, acc);
  }

  lemma StillJointFeasible(shape: Shape, i: nat, vel2: real, acc: real)
    requires shape.Valid() && i < |shape.tangent| && !shape.Moves(i) && 0.0 <= vel2
    ensures shape.JointFeasible(i, vel2, acc) <==> Bearable(shape, i, vel2)
  {
    AbsProduct(shape.curvature[i], vel2);
  }

  /** Joint i can share the tightest joint's maximum. */
  lemma SharedWithTightest(shape: Shape, i: nat, tight: nat, vel: real)
    requires shape.Valid() && i < |shape.tangent| && tight < |shape.tangent| && shape.Moves(i) && shape.Moves(tight)
    requires i < tight ==> Compatible(shape, i, tight, vel * vel)
    requires tight < i ==> Compatible(shape, tight, i, vel * vel)
    ensures -JointBound(shape, i, vel, false) <= JointBound(shape, tight, vel, true)
  {
    if i == tight {
      JointBoundMeans(shape, i, vel, true);
    } else if i < tight {
      CompatibleMeans(shape, i, tight, vel);
    } else {
      CompatibleMeans(shape, tight, i, vel);
    }
  }

  lemma FeasibleIsBelowCurve(shape: Shape, vel: real, vel2: real, acc: real)
    requires shape.Valid() && vel2 == vel * vel && shape.Feasible(vel2, acc)
    ensures Below(vel2, CurveBelow(shape, |shape.tangent|))
  {
    hide JointBound, Shape.JointFeasible, Compatible, Bearable;
    forall i, j | 0 <= i < |shape.tangent| && i < j < |shape.tangent|
      ensures Compatible(shape, i, j, vel2)
    {
      FeasibleIsCompatible(shape, i, j, vel, acc);
    }
    forall i | 0 <= i < |shape.tangent|
      ensures Bearable(shape, i, vel2)
    {
      FeasibleIsBearable(shape, i, vel2, acc);
    }
    CurveBelowMeans(shape, |shape.tangent|, vel2);
  }

  lemma FeasibleIsCompatible(shape: Shape, i: nat, j: nat, vel: real, acc: real)
    requires shape.Valid() && i < |shape.tangent| && j < |shape.tangent|
    requires shape.JointFeasible(i, vel * vel, acc) && shape.JointFeasible(j, vel * vel, acc)
    ensures Compatible(shape, i, j, vel * vel)
  {
    hide JointBound, Shape.JointFeasible;
    if shape.Moves(i) && shape.Moves(j) {
      JointFeasibleIffBetween(shape, i, vel, acc);
      JointFeasibleIffBetween(shape, j, vel, acc);
      CompatibleMeans(shape, i, j, vel);
    }
  }

  lemma FeasibleIsBearable(shape: Shape, i: nat, vel2: real, acc: real)
    requires shape.Valid() && i < |shape.tangent| && 0.0 <= vel2 && shape.JointFeasible(i, vel2, acc)
    ensures Bearable(shape, i, vel2)
  {
    if !shape.Moves(i) {
      StillJointFeasible(shape, i, vel2, acc);
    }
  }

  /** Some path acceleration suits every joint at this squared velocity. */
  ghost predicate Attainable(shape: Shape, vel2: real)
    requires shape.Valid()
  {
    exists acc :: shape.Feasible(vel2, acc)
  }

  /** The curve is exact: a path velocity is at or below it exactly when some path acceleration suits every joint. */
  lemma CurveIsExact(shape: Shape, vel: real)
    requires shape.Valid()
    ensures Below(vel * vel, CurveBelow(shape, |shape.tangent|)) <==> Attainable(shape, vel * vel)
  {
    var vel2 := vel * vel;
    if Below(vel2, CurveBelow(shape, |shape.tangent|)) {
      var acc := BelowCurveIsFeasible(shape, vel, vel2);
    }
    if acc :| shape.Feasible(vel2, acc) {
      FeasibleIsBelowCurve(shape, vel, vel2, acc);
    }
  }

  /** Below the curve the computed minimum is at most the computed maximum, and the accelerations between them are
      exactly the ones that suit every joint. */
  lemma SpanBelowCurve(shape: Shape, vel: real, acc: real)
    requires shape.Valid() && Below(vel * vel, CurveBelow(shape, |shape.tangent|))
    ensures var low, high := MinMaxAcceleration(shape, vel, false), MinMaxAcceleration(shape, vel, true);
      && (low.Finite? && high.Finite? ==> low.value <= high.value)
      && (Between(acc, low, high) <==> shape.Feasible(vel * vel, acc))
  {
    hide Shape.JointFeasible, MinMaxAcceleration;
    var vel2 := vel * vel;
    var suitable := BelowCurveIsFeasible(shape, vel, vel2);
    MinMaxIsExact(shape, vel, vel2, acc);
    CurveBelowMeans(shape, |shape.tangent|, vel2);
    forall i | 0 <= i < |shape.tangent| && !shape.Moves(i)
      ensures shape.JointFeasible(i, vel2, acc)
    {
      StillJointFeasible(shape, i, vel2, acc);
    }
  }

  // ----- The speed-limited velocity curve -----

  predicate SpeedLimited(tangent: seq<real>, maxVelocity: seq<real>) {
    |tangent| == |maxVelocity| && forall i :: 0 <= i < |maxVelocity| ==> 0.0 < maxVelocity[i]
  }

  predicate KeepsUp(tangent: real, maxVelocity: real, vel: real) {
    Abs(tangent) * vel <= maxVelocity
  }

  /** A path velocity is at or below this bound exactly when every joint stays within its speed limit. A joint that does
      not move divides by zero, which gives infinity. */
  method GetVelocityMaxPathVelocity(tangent: seq<real>, maxVelocity: seq<real>) returns (bound: Bound)
    requires SpeedLimited(tangent, maxVelocity)
    ensures forall vel: real :: Below(vel, bound) <==>
      forall i :: 0 <= i < |tangent| ==> KeepsUp(tangent[i], maxVelocity[i], vel)
  {
    hide KeepsUp;
    bound := Unbounded;
    var i := 0;
    while i < |tangent|
      invariant 0 <= i <= |tangent|
      invariant forall vel: real :: Below(vel, bound) <==>
        forall k :: 0 <= k < i ==> KeepsUp(tangent[k], maxVelocity[k], vel)
    {
      var before := bound;
      if tangent[i] != 0.0 {
        bound := Lower(bound, maxVelocity[i] / Abs(tangent[i]));
      }
      forall vel: real
        ensures Below(vel, bound) <==> Below(vel, before) && KeepsUp(tangent[i], maxVelocity[i], vel)
      {
        KeepsUpMeans(tangent[i], maxVelocity[i], vel);
      }
      i := i + 1;
    }
  }

  lemma KeepsUpMeans(tangent: real, maxVelocity: real, vel: real)
    requires 0.0 < maxVelocity
    ensures KeepsUp(tangent, maxVelocity, vel) <==> tangent == 0.0 || vel <= maxVelocity / Abs(tangent)
  {
    if tangent != 0.0 {
      QuotientBound(maxVelocity, Abs(tangent), vel);
    }
  }
}
