/** Upsampling a trajectory until it respects speed and acceleration limits (`saturate` in
    HuboPath/src/Trajectory.cpp). */
module Saturation {
  import opened RealArith
  import opened PathTypes

  /** Everything `saturate` is called with. */
  datatype Setup = Setup(
    elements: seq<Element>, maxVelocities: seq<real>, maxAccelerations: seq<real>,
    frequency: real, mapping: seq<nat>, forwardOnly: bool) {

    predicate Sized() {
      && 0 < |elements|
      && |maxVelocities| == |maxAccelerations| == |mapping|
      && DistinctJoints(mapping)
    }

    /** Limits a caller can mean: none negative, and a positive frequency. */
    predicate Valid() {
      && Sized()
      && 0.0 < frequency
      && forall i :: 0 <= i < |mapping| ==> 0.0 <= maxVelocities[i] && 0.0 <= maxAccelerations[i]
    }

    /** No joint whose speed limit is zero is asked to move, unless by an element that is blocked. */
    predicate Completes()
      requires Valid()
    {
      forall k, i :: 0 <= k < |elements| && 0 <= i < |mapping| && maxVelocities[i] == 0.0 && Leaves(k, i) ==>
        !forwardOnly && Blocked(k)
    }

    /** Element k asks a joint that may not accelerate to leave its starting reference: the loop, starting from rest,
        turns to the element after it without changing its motion. */
    predicate Blocked(k: nat)
      requires Valid() && k < |elements|
    {
      exists j :: 0 <= j < |mapping| && maxAccelerations[j] == 0.0 && Leaves(k, j)
    }

    /** Element k asks joint i to leave its starting reference. */
    predicate Leaves(k: nat, i: nat)
      requires Valid() && k < |elements| && i < |mapping|
    {
      Ref(elements[k], i) != Ref(elements[0], i)
    }

    /** Reference of the i-th mapped joint. */
    function Ref(e: Element, i: nat): real
      requires DistinctJoints(mapping) && i < |mapping|
    {
      e.references[mapping[i]]
    }

    function Speed(from: Element, to: Element, i: nat): (v: real)
      requires Valid() && i < |mapping|
      ensures 0.0 <= v
    {
      Abs(Ref(to, i) - Ref(from, i)) * frequency
    }

    function Acceleration(before: Element, at: Element, after: Element, i: nat): (a: real)
      requires Valid() && i < |mapping|
      ensures 0.0 <= a
    {
      Abs(Ref(after, i) - 2.0 * Ref(at, i) + Ref(before, i)) * (frequency * frequency)
    }

    function Speeds(from: Element, to: Element): (values: seq<real>)
      requires Valid()
      ensures |values| == |mapping|
    {
      seq(|mapping|, i requires 0 <= i < |mapping| => Speed(from, to, i))
    }

    function Accelerations(before: Element, at: Element, after: Element): (values: seq<real>)
      requires Valid()
      ensures |values| == |mapping|
    {
      seq(|mapping|, i requires 0 <= i < |mapping| => Acceleration(before, at, after, i))
    }

    /** The mapped joints after moving only the fraction s of the way from last to target. */
    function ScaledMove(last: Element, target: Element, s: real): (values: seq<real>)
      requires Valid()
      ensures |values| == |mapping|
    {
      seq(|mapping|, i requires 0 <= i < |mapping| => Toward(s, Ref(target, i), Ref(last, i)))
    }

    /** The mapped joints of the next element once its acceleration is scaled by a. */
    function ScaledBend(last: Element, target: Element, next: Element, a: real): (values: seq<real>)
      requires Valid()
      ensures |values| == |mapping|
    {
      seq(|mapping|, i requires 0 <= i < |mapping| =>
        BendTo(a, Ref(next, i), Ref(target, i), Ref(last, i)))
    }

    predicate TooFast(from: Element, to: Element)
      requires Valid()
    {
      exists i :: 0 <= i < |mapping| && maxVelocities[i] < Speed(from, to, i)
    }

    /** Some scaled joint left the range between the target and its unscaled reference. */
    predicate Overshoots(target: Element, next: Element, values: seq<real>)
      requires Sized() && |values| == |mapping|
    {
      exists i :: 0 <= i < |mapping| && !InRange(Ref(next, i), Ref(target, i), values[i])
    }

    function WithValues(e: Element, values: seq<real>): Element
      requires Sized() && |values| == |mapping|
    {
      e.(references := Patch(e.references, mapping, values, |mapping|))
    }
  }

  /** The factor, at most 1, that brings the first k values within their limits. */
  function LimitScale(values: seq<real>, limits: seq<real>, k: nat): real
    requires Scalable(values, limits) && k <= |values|
  {
    if k == 0 then 1.0 else LimitBy(LimitScale(values, limits, k - 1), values[k - 1], limits[k - 1])
  }

  /** One round of the running minimum: a value over its limit asks for the scale limit/value. */
  function LimitBy(scale: real, value: real, limit: real): real
    requires 0.0 <= value && 0.0 <= limit
  {
    if value <= limit then scale
    else if limit / value < scale then limit / value
    else scale
  }

  lemma LimitByFits(scale: real, value: real, limit: real)
    requires 0.0 <= scale <= 1.0 && 0.0 <= value && 0.0 <= limit
    ensures 0.0 <= LimitBy(scale, value, limit) <= scale
    ensures LimitBy(scale, value, limit) * value <= limit
    ensures LimitBy(scale, value, limit) < scale ==> Forces(value, limit, LimitBy(scale, value, limit))
  {
    if value <= limit {
      MulMonotone(scale, 1.0, value);
    } else {
      QuotientIsFactor(limit, value);
      MulMonotone(LimitBy(scale, value, limit), limit / value, value);
    }
  }

  predicate Scalable(values: seq<real>, limits: seq<real>) {
    |values| == |limits| && forall i :: 0 <= i < |values| ==> 0.0 <= values[i] && 0.0 <= limits[i]
  }

  /** The limit that decided the scale. */
  predicate Forces(value: real, limit: real, s: real) {
    limit < value && s * value == limit
  }

  /** Every scaled value is within its limit. */
  lemma {:induction false} LimitScaleFits(values: seq<real>, limits: seq<real>, k: nat, i: nat)
    requires Scalable(values, limits) && k <= |values|
    ensures 0.0 <= LimitScale(values, limits, k) <= 1.0
    ensures i < k ==> LimitScale(values, limits, k) * values[i] <= limits[i]
  {
    hide LimitBy;
    if 0 < k {
      LimitScaleFits(values, limits, k - 1, i);
      LimitByFits(LimitScale(values, limits, k - 1), values[k - 1], limits[k - 1]);
      if i < k - 1 {
        MulMonotone(LimitScale(values, limits, k), LimitScale(values, limits, k - 1), values[i]);
      }
    }
  }

  /** A scale below 1 is the one some limit asks for. */
  lemma {:induction false} LimitScaleIsForced(values: seq<real>, limits: seq<real>, k: nat) returns (i: nat)
    requires Scalable(values, limits) && k <= |values|
    requires LimitScale(values, limits, k) < 1.0
    ensures i < k && Forces(values[i], limits[i], LimitScale(values, limits, k))
  {
    hide LimitBy;
    LimitScaleFits(values, limits, k - 1, 0);
    LimitByFits(LimitScale(values, limits, k - 1), values[k - 1], limits[k - 1]);
    if LimitScale(values, limits, k) < LimitScale(values, limits, k - 1) {
      i := k - 1;
    } else {
      i := LimitScaleIsForced(values, limits, k - 1);
    }
  }

  lemma QuotientIsFactor(limit: real, value: real)
    requires 0.0 <= limit < value
    ensures 0.0 <= limit / value < 1.0 && limit / value * value == limit
  {
    var q := limit / value;
    assert q * value == limit;
    assert q < 0.0 ==> q * value < 0.0;
    assert 1.0 <= q ==> 0.0 <= (q - 1.0) * value;
  }

  /** The point the fraction s of the way from qLast to q. */
  function Toward(s: real, q: real, qLast: real): real {
    s * (q - qLast) + qLast
  }

  /** The next point whose second difference is the fraction a of the one wanted. */
  function BendTo(a: real, qNext: real, q: real, qLast: real): real {
    a * (qNext - 2.0 * q + qLast) + 2.0 * q - qLast
  }

  lemma TowardGap(s: real, q: real, qLast: real)
    ensures Toward(s, q, qLast) - qLast == s * (q - qLast)
    ensures q - Toward(s, q, qLast) == (1.0 - s) * (q - qLast)
  {}

  lemma BendToGap(a: real, qNext: real, q: real, qLast: real)
    ensures BendTo(a, qNext, q, qLast) - q == a * (qNext - q) + (1.0 - a) * (q - qLast)
    ensures BendTo(a, qNext, q, qLast) - 2.0 * q + qLast == a * (qNext - 2.0 * q + qLast)
  {}

  predicate InRange(x: real, y: real, z: real) {
    (if x < y then x else y) <= z <= (if x < y then y else x)
  }

  /** The loop's variables between two passes; the target equals the next element there. */
  datatype State = State(last: Element, next: Element, upcoming: nat, out: seq<Element>)

  function SpeedScale(setup: Setup, last: Element, target: Element): real
    requires setup.Valid()
  {
    LimitScale(setup.Speeds(last, target), setup.maxVelocities, |setup.mapping|)
  }

  function AccelScale(setup: Setup, last: Element, target: Element, aim: Element): real
    requires setup.Valid()
  {
    LimitScale(setup.Accelerations(last, target, aim), setup.maxAccelerations, |setup.mapping|)
  }

  function Init(setup: Setup): State
    requires setup.Valid()
  {
    State(setup.elements[0], setup.elements[0], 1, [])
  }

  /** The element a pass pushes. */
  function Target(setup: Setup, st: State): Element
    requires setup.Valid()
  {
    var s := SpeedScale(setup, st.last, st.next);
    if s < 1.0 then setup.WithValues(st.next, setup.ScaledMove(st.last, st.next, s)) else st.next
  }

  /** A pass keeps aiming at the same element while that is more than one speed-limited step away. */
  predicate Stays(setup: Setup, st: State)
    requires setup.Valid()
  {
    SpeedScale(setup, st.last, st.next) < 1.0 && setup.TooFast(Target(setup, st), st.next)
  }

  /** The element a pass aims at next, before its acceleration is limited. */
  function Aim(setup: Setup, st: State): Element
    requires setup.Valid()
  {
    if Stays(setup, st) then st.next
    else if st.upcoming < |setup.elements| then setup.elements[st.upcoming]
    else setup.elements[|setup.elements| - 1]
  }

  function Bent(setup: Setup, last: Element, target: Element, aim: Element): Element
    requires setup.Valid()
  {
    var a := AccelScale(setup, last, target, aim);
    var values := setup.ScaledBend(last, target, aim, a);
    if 1.0 <= a || (setup.forwardOnly && setup.Overshoots(target, aim, values)) then aim
    else setup.WithValues(aim, values)
  }

  /** One pass of the loop. */
  function Pass(setup: Setup, st: State): State
    requires setup.Valid()
  {
    var target := Target(setup, st);
    State(target, Bent(setup, st.last, target, Aim(setup, st)),
          if Stays(setup, st) then st.upcoming else st.upcoming + 1,
          st.out + [target])
  }

  // ----- What one pass does to one joint -----

  lemma SpeedScaleFits(setup: Setup, last: Element, target: Element, i: nat)
    requires setup.Valid()
    ensures 0.0 <= SpeedScale(setup, last, target) <= 1.0
    ensures i < |setup.mapping| ==>
      SpeedScale(setup, last, target) * setup.Speed(last, target, i) <= setup.maxVelocities[i]
  {
    LimitScaleFits(setup.Speeds(last, target), setup.maxVelocities, |setup.mapping|, i);
  }

  lemma SpeedScaleIsForced(setup: Setup, last: Element, target: Element) returns (i: nat)
    requires setup.Valid() && SpeedScale(setup, last, target) < 1.0
    ensures i < |setup.mapping|
    ensures Forces(setup.Speed(last, target, i), setup.maxVelocities[i], SpeedScale(setup, last, target))
  {
    i := LimitScaleIsForced(setup.Speeds(last, target), setup.maxVelocities, |setup.mapping|);
  }

  lemma AccelScaleFits(setup: Setup, last: Element, target: Element, aim: Element, i: nat)
    requires setup.Valid()
    ensures 0.0 <= AccelScale(setup, last, target, aim) <= 1.0
    ensures i < |setup.mapping| ==>
      AccelScale(setup, last, target, aim) * setup.Acceleration(last, target, aim, i) <= setup.maxAccelerations[i]
  {
    LimitScaleFits(setup.Accelerations(last, target, aim), setup.maxAccelerations, |setup.mapping|, i);
  }

  lemma AccelScaleIsForced(setup: Setup, last: Element, target: Element, aim: Element) returns (i: nat)
    requires setup.Valid() && AccelScale(setup, last, target, aim) < 1.0
    ensures i < |setup.mapping|
    ensures Forces(setup.Acceleration(last, target, aim, i), setup.maxAccelerations[i],
                   AccelScale(setup, last, target, aim))
  {
    i := LimitScaleIsForced(setup.Accelerations(last, target, aim), setup.maxAccelerations, |setup.mapping|);
  }

  /** The move the i-th joint makes from one element to another. */
  function Gap(setup: Setup, from: Element, to: Element, i: nat): real
    requires setup.Valid() && i < |setup.mapping|
  {
    setup.Ref(to, i) - setup.Ref(from, i)
  }

  /** A pass moves every joint by the same fraction of the way to the element aimed at. */
  lemma TargetGap(setup: Setup, st: State, i: nat)
    requires setup.Valid() && i < |setup.mapping|
    ensures var s, target := SpeedScale(setup, st.last, st.next), Target(setup, st);
      && Gap(setup, st.last, target, i) == s * Gap(setup, st.last, st.next, i)
      && Gap(setup, target, st.next, i) == (1.0 - s) * Gap(setup, st.last, st.next, i)
  {
    hide Toward, SpeedScale, Patch;
    var s := SpeedScale(setup, st.last, st.next);
    SpeedScaleFits(setup, st.last, st.next, i);
    TowardGap(s, setup.Ref(st.next, i), setup.Ref(st.last, i));
    PatchAt(st.next.references, setup.mapping, setup.ScaledMove(st.last, st.next, s), |setup.mapping|, i);
  }

  /** The fraction of the change of speed that a pass lets through. */
  function BendScale(setup: Setup, last: Element, target: Element, aim: Element): real
    requires setup.Valid()
  {
    if Bent(setup, last, target, aim) == aim then 1.0 else AccelScale(setup, last, target, aim)
  }

  /** The move aimed at next is a mix of the move wanted and the move just made, the same mix for every joint. */
  lemma BentGap(setup: Setup, last: Element, target: Element, aim: Element, i: nat)
    requires setup.Valid() && i < |setup.mapping|
    ensures var a := BendScale(setup, last, target, aim);
      && 0.0 <= a <= 1.0
      && Gap(setup, target, Bent(setup, last, target, aim), i)
         == a * Gap(setup, target, aim, i) + (1.0 - a) * Gap(setup, last, target, i)
  {
    hide BendTo, AccelScale, Patch, Setup.Overshoots;
    var a := AccelScale(setup, last, target, aim);
    AccelScaleFits(setup, last, target, aim, i);
    BendToGap(a, setup.Ref(aim, i), setup.Ref(target, i), setup.Ref(last, i));
    PatchAt(aim.references, setup.mapping, setup.ScaledBend(last, target, aim, a), |setup.mapping|, i);
  }

  // ----- The loop ends -----

  /** Joints that may not accelerate have not left their starting reference. */
  predicate Rigid(setup: Setup, st: State)
    requires setup.Valid()
  {
    forall j :: 0 <= j < |setup.mapping| && setup.maxAccelerations[j] == 0.0 ==> AtRest(setup, st, j)
  }

  /** Joints with a zero limit have not left their starting reference. */
  predicate Anchored(setup: Setup, st: State)
    requires setup.Valid()
  {
    && (!setup.forwardOnly ==> Rigid(setup, st))
    && forall i :: 0 <= i < |setup.mapping| && setup.maxVelocities[i] == 0.0 ==> AtRest(setup, st, i)
  }

  predicate AtRest(setup: Setup, st: State, i: nat)
    requires setup.Valid() && i < |setup.mapping|
  {
    setup.Ref(st.last, i) == setup.Ref(st.next, i) == setup.Ref(setup.elements[0], i)
  }

  lemma SpeedIsGap(setup: Setup, from: Element, to: Element, from': Element, to': Element, c: real, i: nat)
    requires setup.Valid() && i < |setup.mapping| && 0.0 <= c
    requires Gap(setup, from', to', i) == c * Gap(setup, from, to, i)
    ensures setup.Speed(from', to', i) == c * setup.Speed(from, to, i)
  {
    AbsProduct(c, Gap(setup, from, to, i));
    Reassociate(c, Abs(Gap(setup, from, to, i)), setup.frequency);
  }
  lemma ScaleIsPositive(setup: Setup, st: State)
    requires setup.Valid() && Anchored(setup, st)
    ensures 0.0 < SpeedScale(setup, st.last, st.next)
  {
    hide SpeedScale;
    SpeedScaleFits(setup, st.last, st.next, 0);
    if SpeedScale(setup, st.last, st.next) < 1.0 {
      var i := SpeedScaleIsForced(setup, st.last, st.next);
    }
  }

  /** A pass that keeps its aim has cut the way to it by more than half. */
  lemma StayingIsFar(setup: Setup, st: State)
    requires setup.Valid() && Stays(setup, st)
    ensures SpeedScale(setup, st.last, st.next) < 0.5
  {
    hide SpeedScale, Target, Setup.Speed, Gap;
    var s, target := SpeedScale(setup, st.last, st.next), Target(setup, st);
    var i: nat :| i < |setup.mapping| && setup.maxVelocities[i] < setup.Speed(target, st.next, i);
    TargetGap(setup, st, i);
    SpeedScaleFits(setup, st.last, st.next, i);
    SpeedIsGap(setup, st.last, st.next, target, st.next, 1.0 - s, i);
    FarIsHalf(s, setup.Speed(st.last, st.next, i), setup.Speed(target, st.next, i));
  }

  lemma FarIsHalf(s: real, speed: real, rest: real)
    requires s * speed < rest && rest == (1.0 - s) * speed && 0.0 <= speed
    ensures s < 0.5
  {
    assert 0.5 <= s ==> 0.0 <= (2.0 * s - 1.0) * speed;
  }

  /** The factor by which a pass that keeps its aim shrinks every joint's remaining way. */
  function Shrinkage(setup: Setup, st: State): real
    requires setup.Valid()
  {
    var s, a := SpeedScale(setup, st.last, st.next), BendScale(setup, st.last, Target(setup, st), Aim(setup, st));
    a * (1.0 - s) + (1.0 - a) * s
  }

  lemma StayingShrinks(setup: Setup, st: State, i: nat)
    requires setup.Valid() && Stays(setup, st) && i < |setup.mapping|
    ensures 0.0 <= Shrinkage(setup, st) <= 1.0 - SpeedScale(setup, st.last, st.next)
    ensures var st' := Pass(setup, st);
      Gap(setup, st'.last, st'.next, i) == Shrinkage(setup, st) * Gap(setup, st.last, st.next, i)
  {
    hide SpeedScale, BendScale, Target, Bent, Gap;
    var s, target := SpeedScale(setup, st.last, st.next), Target(setup, st);
    var a := BendScale(setup, st.last, target, Aim(setup, st));
    StayingIsFar(setup, st);
    SpeedScaleFits(setup, st.last, st.next, i);
    TargetGap(setup, st, i);
    BentGap(setup, st.last, target, Aim(setup, st), i);
    Mix(a, s, Gap(setup, st.last, st.next, i));
  }

  lemma Mix(a: real, s: real, d: real)
    requires 0.0 <= a <= 1.0 && 0.0 <= s <= 0.5
    ensures 0.0 <= a * (1.0 - s) + (1.0 - a) * s <= 1.0 - s
    ensures a * ((1.0 - s) * d) + (1.0 - a) * (s * d) == (a * (1.0 - s) + (1.0 - a) * s) * d
  {
    MulNonNegative(a, 1.0 - s);
    MulNonNegative(1.0 - a, s);
    MulNonNegative(1.0 - a, 1.0 - 2.0 * s);
    assert 1.0 - s - (a * (1.0 - s) + (1.0 - a) * s) == (1.0 - a) * (1.0 - 2.0 * s);
  }

  /** How many whole speed-limited steps away the element aimed at is. */
  function Rank(setup: Setup, st: State): nat
    requires setup.Valid()
  {
    var s := SpeedScale(setup, st.last, st.next);
    if 0.0 < s < 1.0 then StepsAway(s) else 0
  }

  function StepsAway(s: real): (n: nat)
    requires 0.0 < s
  {
    assert 0.0 < 1.0 / s;
    (1.0 / s).Floor
  }

  lemma CloserIsFewer(s: real, s': real, c: real, speed: real)
    requires 0.0 < s < 0.5 && 0.0 < s' && 0.0 <= c <= 1.0 - s && 0.0 < speed
    requires s * speed <= s' * (c * speed)
    ensures StepsAway(s') < StepsAway(s)
  {
    assert s <= s' * c by {
      assert s' * c < s ==> 0.0 < (s - s' * c) * speed == s * speed - s' * (c * speed);
    }
    var x, x' := 1.0 / s, 1.0 / s';
    assert x * s == 1.0 && x' * s' == 1.0;
    Reciprocals(s, s', c, x, x');
  }

  lemma Reciprocals(s: real, s': real, c: real, x: real, x': real)
    requires 0.0 < s && 0.0 < s' && c <= 1.0 - s && s <= s' * c && x * s == 1.0 && x' * s' == 1.0
    ensures x' + 1.0 <= x
  {
    assert 0.0 < x && 0.0 < x' by {
      assert x <= 0.0 ==> x * s <= 0.0;
      assert x' <= 0.0 ==> x' * s' <= 0.0;
    }
    assert s <= s' * (1.0 - s) by {
      assert 0.0 <= s' * (1.0 - s - c);
    }
    assert s * (x * x') == x' by { assert s * (x * x') == (x * s) * x'; }
    assert (s' * (1.0 - s)) * (x * x') == x - 1.0 by {
      assert (s' * (1.0 - s)) * (x * x') == (x' * s') * (x - x * s);
    }
    assert 0.0 <= (s' * (1.0 - s) - s) * (x * x');
  }

  lemma RankDrops(setup: Setup, st: State)
    requires setup.Valid() && Anchored(setup, st) && Stays(setup, st)
    ensures Rank(setup, Pass(setup, st)) < Rank(setup, st)
    ensures Anchored(setup, Pass(setup, st))
  {
    hide SpeedScale, Shrinkage, Pass, Stays, StepsAway, Setup.Speed;
    var st' := Pass(setup, st);
    var s, s', c := SpeedScale(setup, st.last, st.next), SpeedScale(setup, st'.last, st'.next), Shrinkage(setup, st);
    AnchorHolds(setup, st);
    ScaleIsPositive(setup, st);
    ScaleIsPositive(setup, st');
    StayingIsFar(setup, st);
    if s' < 1.0 {
      var i := SpeedScaleIsForced(setup, st'.last, st'.next);
      StayingShrinks(setup, st, i);
      SpeedIsGap(setup, st.last, st.next, st'.last, st'.next, c, i);
      SpeedScaleFits(setup, st.last, st.next, i);
      CloserIsFewer(s, s', c, setup.Speed(st.last, st.next, i));
    } else {
      FarIsSteps(s);
    }
  }

  lemma FarIsSteps(s: real)
    requires 0.0 < s < 0.5
    ensures 0 < StepsAway(s)
  {
    var x := 1.0 / s;
    assert x * s == 1.0;
    assert x < 1.0 ==> x * s < s;
  }

  /** A joint at rest stays there through a pass that does not ask it to move. */
  lemma RestHolds(setup: Setup, st: State, i: nat)
    requires setup.Valid() && i < |setup.mapping| && AtRest(setup, st, i)
    requires setup.Ref(Aim(setup, st), i) == setup.Ref(setup.elements[0], i)
    ensures AtRest(setup, Pass(setup, st), i)
  {
    hide SpeedScale, BendScale, Target, Bent, Stays, Aim;
    TargetGap(setup, st, i);
    BentGap(setup, st.last, Target(setup, st), Aim(setup, st), i);
  }

  /** Index of the element a pass aims at once it turns to another. */
  function NextIndex(setup: Setup, st: State): (k: nat)
    requires setup.Valid()
    ensures k < |setup.elements|
  {
    if st.upcoming < |setup.elements| then st.upcoming else |setup.elements| - 1
  }

  /** Joints with a zero limit stay at rest. */
  lemma AnchorHolds(setup: Setup, st: State)
    requires setup.Valid() && Anchored(setup, st)
    requires Stays(setup, st) || setup.Completes()
    ensures Anchored(setup, Pass(setup, st))
  {
    hide Pass, Stays, Target, Setup.Blocked, AtRest;
    if !setup.forwardOnly { RigidHolds(setup, st); }
    forall i | 0 <= i < |setup.mapping| && setup.maxVelocities[i] == 0.0
      ensures AtRest(setup, Pass(setup, st), i)
    {
      if Stays(setup, st) || !setup.Leaves(NextIndex(setup, st), i) {
        AimAtRest(setup, st, i);
        RestHolds(setup, st, i);
      } else {
        BlockedStays(setup, st, i);
      }
    }
  }

  lemma AimAtRest(setup: Setup, st: State, i: nat)
    requires setup.Valid() && i < |setup.mapping| && AtRest(setup, st, i)
    requires Stays(setup, st) || !setup.Leaves(NextIndex(setup, st), i)
    ensures setup.Ref(Aim(setup, st), i) == setup.Ref(setup.elements[0], i)
  {
    hide Stays;
  }

  /** The elements the loop has pushed when it ends, from any state between two passes. */
  function Run(setup: Setup, st: State): seq<Element>
    requires setup.Valid() && setup.Completes() && Anchored(setup, st)
    decreases if st.upcoming <= |setup.elements| then |setup.elements| + 1 - st.upcoming else 0, Rank(setup, st)
  {
    if |setup.elements| < st.upcoming then st.out
    else
      PassProgresses(setup, st);
      Run(setup, Pass(setup, st))
  }

  lemma PassProgresses(setup: Setup, st: State)
    requires setup.Valid() && setup.Completes() && Anchored(setup, st)
    ensures Anchored(setup, Pass(setup, st))
    ensures Pass(setup, st).upcoming == st.upcoming + 1
      || (Pass(setup, st).upcoming == st.upcoming && Rank(setup, Pass(setup, st)) < Rank(setup, st))
  {
    AnchorHolds(setup, st);
    if Stays(setup, st) {
      RankDrops(setup, st);
    }
  }

  /** What `saturate` returns. */
  function Saturated(setup: Setup): seq<Element>
    requires setup.Valid() && setup.Completes()
  {
    if |setup.elements| < 2 then [setup.elements[0]] else Run(setup, Init(setup))
  }

  /** The state after k passes, whether or not the loop would still be running. */
  function Passes(setup: Setup, k: nat): State
    requires setup.Valid()
  {
    if k == 0 then Init(setup) else Pass(setup, Passes(setup, k - 1))
  }

  ghost predicate Terminates(setup: Setup)
    requires setup.Valid()
  {
    exists k: nat :: |setup.elements| < Passes(setup, k).upcoming
  }

  lemma RigidHolds(setup: Setup, st: State)
    requires setup.Valid() && !setup.forwardOnly && Rigid(setup, st)
    ensures Rigid(setup, Pass(setup, st))
  {
    hide SpeedScale, Target, Bent, Stays, Setup.Acceleration;
    var target, aim := Target(setup, st), Aim(setup, st);
    forall j | 0 <= j < |setup.mapping| && setup.maxAccelerations[j] == 0.0
      ensures AtRest(setup, Pass(setup, st), j)
    {
      TargetGap(setup, st, j);
      BentIsGentle(setup, st.last, target, aim, j);
      NoBend(setup, st.last, target, Bent(setup, st.last, target, aim), j);
    }
  }

  /** Without acceleration a joint repeats its last move. */
  lemma NoBend(setup: Setup, before: Element, at: Element, after: Element, j: nat)
    requires setup.Valid() && j < |setup.mapping| && setup.Acceleration(before, at, after, j) <= 0.0
    ensures Gap(setup, at, after, j) == Gap(setup, before, at, j)
  {
    NonZeroProduct(setup.frequency, setup.frequency);
    NonZeroProduct(setup.frequency * setup.frequency,
                   Abs(setup.Ref(after, j) - 2.0 * setup.Ref(at, j) + setup.Ref(before, j)));
  }

  /** Turning to a blocked element leaves a joint at rest where it is. */
  lemma BlockedStays(setup: Setup, st: State, i: nat)
    requires setup.Valid() && !setup.forwardOnly && Rigid(setup, st) && i < |setup.mapping| && AtRest(setup, st, i)
    requires !Stays(setup, st) && setup.Blocked(NextIndex(setup, st))
    ensures AtRest(setup, Pass(setup, st), i)
  {
    hide SpeedScale, BendScale, Target, Bent, Stays, Setup.Acceleration;
    var target, aim := Target(setup, st), Aim(setup, st);
    var b := BendScale(setup, st.last, target, aim);
    TargetGap(setup, st, i);
    BentGap(setup, st.last, target, aim, i);
    var j :| 0 <= j < |setup.mapping| && setup.maxAccelerations[j] == 0.0 && setup.Leaves(NextIndex(setup, st), j);
    RigidHolds(setup, st);
    assert AtRest(setup, Pass(setup, st), j);
    TargetGap(setup, st, j);
    BentGap(setup, st.last, target, aim, j);
    NonZeroFactor(b, Gap(setup, target, aim, j));
  }

  lemma NonZeroFactor(b: real, x: real)
    requires b * x == 0.0 && x != 0.0
    ensures b == 0.0
  {}

  lemma {:induction false} ReachesTheEnd(setup: Setup, k: nat)
    requires setup.Valid() && setup.Completes() && Anchored(setup, Passes(setup, k))
    ensures Terminates(setup)
    decreases var st := Passes(setup, k);
      if st.upcoming <= |setup.elements| then |setup.elements| + 1 - st.upcoming else 0, Rank(setup, Passes(setup, k))
  {
    if Passes(setup, k).upcoming <= |setup.elements| {
      PassProgresses(setup, Passes(setup, k));
      ReachesTheEnd(setup, k + 1);
    }
  }

  /** The elements before p that ask joint i to move are blocked. */
  predicate QuietBefore(setup: Setup, p: nat, i: nat)
    requires setup.Valid() && i < |setup.mapping|
  {
    forall k :: 0 <= k < p && k < |setup.elements| && setup.Leaves(k, i) ==> setup.Blocked(k)
  }

  /** Before element p is aimed at joint i is at rest; from then on it can never close the gap. */
  predicate HeldUp(setup: Setup, st: State, p: nat, i: nat)
    requires setup.Valid() && i < |setup.mapping|
  {
    var rest := setup.Ref(setup.elements[0], i);
    && Rigid(setup, st)
    && setup.Ref(st.last, i) == rest
    && st.upcoming <= p + 1
    && (setup.Ref(st.next, i) == rest <==> st.upcoming <= p)
  }

  /** Joint i may not move, and element p is the first to make the loop try. */
  predicate Traps(setup: Setup, p: nat, i: nat)
    requires setup.Valid() && i < |setup.mapping|
  {
    && 1 <= p < |setup.elements| && setup.maxVelocities[i] == 0.0
    && QuietBefore(setup, p, i) && setup.Leaves(p, i) && !setup.Blocked(p)
  }

  lemma HeldUpStays(setup: Setup, st: State, p: nat, i: nat)
    requires setup.Valid() && !setup.forwardOnly && i < |setup.mapping| && Traps(setup, p, i)
    requires HeldUp(setup, st, p, i)
    ensures HeldUp(setup, Pass(setup, st), p, i)
  {
    hide SpeedScale, BendScale, Target, Bent, Stays, Setup.Blocked, Setup.Speed;
    RigidHolds(setup, st);
    if st.upcoming == p + 1 {
      TrappedStays(setup, st, i);
      AimIsOff(setup, st, i);
    } else if Stays(setup, st) || (st.upcoming < p && !setup.Leaves(st.upcoming, i)) {
      RestHolds(setup, st, i);
    } else if st.upcoming < p {
      BlockedStays(setup, st, i);
    } else {
      UnblockedIsRigid(setup, p);
      AimIsOff(setup, st, i);
    }
  }

  lemma UnblockedIsRigid(setup: Setup, p: nat)
    requires setup.Valid() && p < |setup.elements| && !setup.Blocked(p)
    ensures forall j :: 0 <= j < |setup.mapping| && setup.maxAccelerations[j] == 0.0 ==>
      setup.Ref(setup.elements[p], j) == setup.Ref(setup.elements[0], j)
  {
    forall j | 0 <= j < |setup.mapping| && setup.maxAccelerations[j] == 0.0
      ensures setup.Ref(setup.elements[p], j) == setup.Ref(setup.elements[0], j)
    {
      assert !setup.Leaves(p, j);
    }
  }

  /** The loop keeps aiming at an element that asks a joint that may not move to do so. */
  lemma TrappedStays(setup: Setup, st: State, i: nat)
    requires setup.Valid() && i < |setup.mapping| && setup.maxVelocities[i] == 0.0
    requires Gap(setup, st.last, st.next, i) != 0.0
    ensures Stays(setup, st)
  {
    hide SpeedScale, Target, Setup.Speed;
    SpeedScaleFits(setup, st.last, st.next, i);
    GapMeansSpeed(setup, st.last, st.next, i);
    NonZeroProduct(setup.Speed(st.last, st.next, i), SpeedScale(setup, st.last, st.next));
    TargetGap(setup, st, i);
    GapMeansSpeed(setup, Target(setup, st), st.next, i);
  }

  /** An aim away from joint i's rest that every joint may accelerate to leaves the next element away from it. */
  lemma AimIsOff(setup: Setup, st: State, i: nat)
    requires setup.Valid() && Rigid(setup, st) && i < |setup.mapping| && setup.maxVelocities[i] == 0.0
    requires setup.Ref(st.last, i) == setup.Ref(setup.elements[0], i) != setup.Ref(Aim(setup, st), i)
    requires forall j :: 0 <= j < |setup.mapping| && setup.maxAccelerations[j] == 0.0 ==>
      setup.Ref(Aim(setup, st), j) == setup.Ref(setup.elements[0], j)
    ensures setup.Ref(Pass(setup, st).last, i) == setup.Ref(setup.elements[0], i) != setup.Ref(Pass(setup, st).next, i)
  {
    hide SpeedScale, BendScale, Target, Bent, Stays, Aim, Setup.Speed;
    var target, aim := Target(setup, st), Aim(setup, st);
    SpeedScaleFits(setup, st.last, st.next, i);
    TargetGap(setup, st, i);
    if Gap(setup, st.last, st.next, i) != 0.0 {
      GapMeansSpeed(setup, st.last, st.next, i);
      NonZeroProduct(setup.Speed(st.last, st.next, i), SpeedScale(setup, st.last, st.next));
    }
    BentGap(setup, st.last, target, aim, i);
    BendScaleIsPositive(setup, st, aim);
    NonZeroProduct(BendScale(setup, st.last, target, aim), Gap(setup, target, aim, i));
  }

  lemma NonZeroProduct(a: real, x: real)
    requires 0.0 < a
    ensures a * x == 0.0 <==> x == 0.0
    ensures x <= 0.0 <==> a * x <= 0.0
  {}

  lemma GapMeansSpeed(setup: Setup, from: Element, to: Element, i: nat)
    requires setup.Valid() && i < |setup.mapping| && Gap(setup, from, to, i) != 0.0
    ensures 0.0 < setup.Speed(from, to, i)
  {
    NonZeroProduct(setup.frequency, Abs(Gap(setup, from, to, i)));
  }

  lemma BendScaleIsPositive(setup: Setup, st: State, aim: Element)
    requires setup.Valid() && Rigid(setup, st)
    requires forall j :: 0 <= j < |setup.mapping| && setup.maxAccelerations[j] == 0.0 ==>
      setup.Ref(aim, j) == setup.Ref(setup.elements[0], j)
    ensures 0.0 < BendScale(setup, st.last, Target(setup, st), aim)
  {
    hide AccelScale, Bent, Target;
    var target := Target(setup, st);
    AccelScaleFits(setup, st.last, target, aim, 0);
    if AccelScale(setup, st.last, target, aim) < 1.0 {
      var j := AccelScaleIsForced(setup, st.last, target, aim);
      TargetGap(setup, st, j);
      if setup.maxAccelerations[j] == 0.0 {
        StraightHasNoBend(setup, st.last, target, aim, j);
      }
    }
  }

  lemma StraightHasNoBend(setup: Setup, before: Element, at: Element, after: Element, j: nat)
    requires setup.Valid() && j < |setup.mapping|
    requires setup.Ref(before, j) == setup.Ref(at, j) == setup.Ref(after, j)
    ensures setup.Acceleration(before, at, after, j) == 0.0
  {}

  lemma {:induction false} NeverPast(setup: Setup, k: nat, p: nat, i: nat)
    requires setup.Valid() && !setup.forwardOnly && i < |setup.mapping| && Traps(setup, p, i)
    ensures HeldUp(setup, Passes(setup, k), p, i)
  {
    if 0 < k {
      NeverPast(setup, k - 1, p, i);
      HeldUpStays(setup, Passes(setup, k - 1), p, i);
    }
  }

  lemma {:induction false} FirstTrap(setup: Setup, k: nat, i: nat) returns (p: nat)
    requires setup.Valid() && i < |setup.mapping| && k < |setup.elements| && setup.maxVelocities[i] == 0.0
    requires setup.Leaves(k, i) && !setup.Blocked(k)
    ensures Traps(setup, p, i)
    decreases k
  {
    if k' :| 0 <= k' < k && setup.Leaves(k', i) && !setup.Blocked(k') {
      p := FirstTrap(setup, k', i);
    } else {
      p := k;
    }
  }

  /** The loop ends exactly when every element that asks a joint to move whose speed limit is zero is blocked. */
  lemma {:induction false} TerminatesExactlyWhenComplete(setup: Setup)
    requires setup.Valid() && !setup.forwardOnly
    ensures Terminates(setup) <==> setup.Completes()
  {
    hide Setup.Blocked, Setup.Leaves;
    if setup.Completes() {
      ReachesTheEnd(setup, 0);
    } else {
      var k: nat, i: nat :| k < |setup.elements| && i < |setup.mapping| && setup.maxVelocities[i] == 0.0
        && setup.Leaves(k, i) && !setup.Blocked(k);
      var p := FirstTrap(setup, k, i);
      forall k: nat
        ensures Passes(setup, k).upcoming <= |setup.elements|
      {
        NeverPast(setup, k, p, i);
      }
    }
  }

  /** Where every joint may accelerate, no joint whose speed limit is zero may be asked to move at all. */
  lemma CompletesMeansStill(setup: Setup)
    requires setup.Valid() && forall j :: 0 <= j < |setup.mapping| ==> 0.0 < setup.maxAccelerations[j]
    ensures setup.Completes() <==>
      forall k, i :: 0 <= k < |setup.elements| && 0 <= i < |setup.mapping| && setup.maxVelocities[i] == 0.0 ==>
        !setup.Leaves(k, i)
  {}

  // ----- What the output guarantees -----

  /** Every two consecutive elements respect every mapped joint's speed limit. */
  predicate KeepsSpeed(setup: Setup, out: seq<Element>)
    requires setup.Valid()
  {
    forall k, i :: 0 < k < |out| && 0 <= i < |setup.mapping| ==>
      setup.Speed(out[k - 1], out[k], i) <= setup.maxVelocities[i]
  }

  /** Every interior element respects every mapped joint's acceleration limit. */
  predicate KeepsAcceleration(setup: Setup, out: seq<Element>)
    requires setup.Valid()
  {
    forall k, i :: 0 < k < |out| - 1 && 0 <= i < |setup.mapping| ==>
      setup.Acceleration(out[k - 1], out[k], out[k + 1], i) <= setup.maxAccelerations[i]
  }

  /** The loop's state has the first element and the speeds of its output right. */
  predicate OnTrack(setup: Setup, st: State)
    requires setup.Valid()
  {
    && (st.out == [] ==> st == Init(setup))
    && (st.out != [] ==> st.out[0] == setup.elements[0] && st.last == st.out[|st.out| - 1])
    && KeepsSpeed(setup, st.out)
  }

  lemma PassKeepsTrack(setup: Setup, st: State)
    requires setup.Valid() && OnTrack(setup, st)
    ensures OnTrack(setup, Pass(setup, st))
  {
    hide SpeedScale, Target, Bent, Stays, Setup.Speed;
    var s, target := SpeedScale(setup, st.last, st.next), Target(setup, st);
    if st.out == [] {
      FirstTarget(setup);
    } else {
      forall i | 0 <= i < |setup.mapping|
        ensures setup.Speed(st.last, target, i) <= setup.maxVelocities[i]
      {
        TargetGap(setup, st, i);
        SpeedScaleFits(setup, st.last, st.next, i);
        SpeedIsGap(setup, st.last, st.next, st.last, target, s, i);
      }
    }
  }

  lemma FirstTarget(setup: Setup)
    requires setup.Valid()
    ensures Target(setup, Init(setup)) == setup.elements[0]
  {
    hide SpeedScale, Setup.Speed;
    StandingStill(setup, setup.elements[0]);
    if SpeedScale(setup, setup.elements[0], setup.elements[0]) < 1.0 {
      var i := SpeedScaleIsForced(setup, setup.elements[0], setup.elements[0]);
    }
  }

  lemma {:induction false} RunKeepsTrack(setup: Setup, st: State)
    requires setup.Valid() && setup.Completes() && Anchored(setup, st) && OnTrack(setup, st)
    requires st.upcoming <= |setup.elements| || st.out != []
    ensures var out := Run(setup, st);
      && st.out <= out && out != [] && out[0] == setup.elements[0] && KeepsSpeed(setup, out)
    decreases if st.upcoming <= |setup.elements| then |setup.elements| + 1 - st.upcoming else 0, Rank(setup, st)
  {
    if st.upcoming <= |setup.elements| {
      PassProgresses(setup, st);
      PassKeepsTrack(setup, st);
      RunKeepsTrack(setup, Pass(setup, st));
    }
  }

  /** The output starts where the input does and never exceeds a speed limit. */
  lemma SaturatedKeepsSpeed(setup: Setup)
    requires setup.Valid() && setup.Completes()
    ensures var out := Saturated(setup);
      out != [] && out[0] == setup.elements[0] && KeepsSpeed(setup, out)
  {
    if 2 <= |setup.elements| {
      RunKeepsTrack(setup, Init(setup));
    }
  }

  // ----- Acceleration, on a straight line -----

  /** The element before the last one pushed; the first element stands for it at the start. */
  function Before(st: State): Element
    requires st.out != []
  {
    if |st.out| == 1 then st.out[0] else st.out[|st.out| - 2]
  }

  /** Element e lies x along a direction from the first element. */
  predicate OnLine(setup: Setup, direction: seq<real>, e: Element, x: real)
    requires setup.Valid() && |direction| == |setup.mapping|
  {
    forall i :: 0 <= i < |setup.mapping| ==> setup.Ref(e, i) == setup.Ref(setup.elements[0], i) + x * direction[i]
  }

  ghost predicate LiesOn(setup: Setup, direction: seq<real>, e: Element)
    requires setup.Valid() && |direction| == |setup.mapping|
  {
    exists x :: OnLine(setup, direction, e, x)
  }

  /** All elements lie on one straight line. */
  ghost predicate Straight(setup: Setup, direction: seq<real>)
    requires setup.Valid()
  {
    && |direction| == |setup.mapping|
    && forall k :: 0 <= k < |setup.elements| ==> LiesOn(setup, direction, setup.elements[k])
  }

  /** The loop has stayed on the line, and the element aimed at is within every joint's acceleration limit. */
  ghost predicate Gentle(setup: Setup, direction: seq<real>, st: State)
    requires setup.Valid() && Straight(setup, direction)
  {
    && LiesOn(setup, direction, st.last) && LiesOn(setup, direction, st.next)
    && KeepsAcceleration(setup, st.out)
    && (st.out != [] ==>
      && LiesOn(setup, direction, Before(st))
      && forall i :: 0 <= i < |setup.mapping| ==>
        && setup.Speed(Before(st), st.last, i) <= setup.maxVelocities[i]
        && setup.Acceleration(Before(st), st.last, st.next, i) <= setup.maxAccelerations[i])
  }

  function Bend(setup: Setup, before: Element, at: Element, after: Element, i: nat): real
    requires setup.Valid() && i < |setup.mapping|
  {
    setup.Ref(after, i) - 2.0 * setup.Ref(at, i) + setup.Ref(before, i)
  }

  lemma AccelerationIsBend(setup: Setup, before: Element, at: Element, after: Element, after': Element, c: real, i: nat)
    requires setup.Valid() && i < |setup.mapping| && 0.0 <= c
    requires Bend(setup, before, at, after', i) == c * Bend(setup, before, at, after, i)
    ensures setup.Acceleration(before, at, after', i) == c * setup.Acceleration(before, at, after, i)
  {
    AbsProduct(c, Bend(setup, before, at, after, i));
    Reassociate(c, Abs(Bend(setup, before, at, after, i)), setup.frequency * setup.frequency);
  }

  lemma BentBend(setup: Setup, last: Element, target: Element, aim: Element, i: nat)
    requires setup.Valid() && i < |setup.mapping| && !setup.forwardOnly && AccelScale(setup, last, target, aim) < 1.0
    ensures Bend(setup, last, target, Bent(setup, last, target, aim), i)
         == AccelScale(setup, last, target, aim) * Bend(setup, last, target, aim, i)
  {
    hide AccelScale, BendTo, Patch;
    var a := AccelScale(setup, last, target, aim);
    BendToGap(a, setup.Ref(aim, i), setup.Ref(target, i), setup.Ref(last, i));
    PatchAt(aim.references, setup.mapping, setup.ScaledBend(last, target, aim, a), |setup.mapping|, i);
  }

  /** The element aimed at next respects every acceleration limit, unless an overshoot keeps it as it was. */
  lemma BentIsGentle(setup: Setup, last: Element, target: Element, aim: Element, i: nat)
    requires setup.Valid() && i < |setup.mapping| && !setup.forwardOnly
    ensures setup.Acceleration(last, target, Bent(setup, last, target, aim), i) <= setup.maxAccelerations[i]
  {
    hide AccelScale, Bend, Setup.Acceleration;
    AccelScaleFits(setup, last, target, aim, i);
    var a := AccelScale(setup, last, target, aim);
    if a < 1.0 {
      BentBend(setup, last, target, aim, i);
      AccelerationIsBend(setup, last, target, aim, Bent(setup, last, target, aim), a, i);
    }
  }

  /** A move scaled by s is at most as far from the previous move p as the whole move d is. */
  predicate Approaches(s: real, d: real, p: real) {
    Abs(s * d - p) <= Abs(d - p)
  }

  /** Clamping a move to an interval that holds the previous move brings the two closer. */
  lemma ClampApproaches(d: real, p: real, s: real, v: real, f: real)
    requires 0.0 < f && 0.0 <= s <= 1.0 && Abs(p) * f <= v && s * (Abs(d) * f) == v
    ensures Approaches(s, d, p)
  {
    hide Abs;
    var sd, length := s * d, Abs(d);
    Reassociate(s, length, f);
    MulCancel(Abs(p), s * length, f);
    Shortened(s, d, sd);
    Nearer(d, sd, p);
  }

  lemma Shortened(s: real, d: real, sd: real)
    requires 0.0 <= s <= 1.0 && sd == s * d
    ensures Abs(sd) == s * Abs(d)
    ensures 0.0 <= sd <= d || d <= sd <= 0.0
  {
    AbsProduct(s, d);
    if 0.0 <= d {
      MulNonNegative(s, d);
      MulMonotone(s, 1.0, d);
    } else {
      MulNonNegative(s, -d);
      MulMonotone(s, 1.0, -d);
    }
  }

  lemma Nearer(d: real, sd: real, p: real)
    requires 0.0 <= sd <= d || d <= sd <= 0.0
    requires Abs(p) <= Abs(sd)
    ensures Abs(sd - p) <= Abs(d - p)
  {}

  /** A line through a and b holds every mix of them. */
  lemma MixOnLine(x: real, y: real, c: real, w: real)
    ensures x * w + c * (y * w - x * w) == (x + c * (y - x)) * w
  {
    Distribute(y, x, w);
    Reassociate(c, y - x, w);
  }

  /** The gap between two points of the line. */
  lemma GapOnLine(setup: Setup, direction: seq<real>, from: Element, to: Element, x: real, y: real, i: nat)
    requires setup.Valid() && |direction| == |setup.mapping| && i < |setup.mapping|
    requires OnLine(setup, direction, from, x) && OnLine(setup, direction, to, y)
    ensures Gap(setup, from, to, i) == (y - x) * direction[i]
  {
    Distribute(y, x, direction[i]);
  }

  /** A pass stays on the line. */
  lemma TargetOnLine(setup: Setup, direction: seq<real>, st: State)
    requires setup.Valid() && |direction| == |setup.mapping|
    requires LiesOn(setup, direction, st.last) && LiesOn(setup, direction, st.next)
    ensures LiesOn(setup, direction, Target(setup, st))
  {
    hide SpeedScale, Target;
    var x :| OnLine(setup, direction, st.last, x);
    var y :| OnLine(setup, direction, st.next, y);
    var s, target := SpeedScale(setup, st.last, st.next), Target(setup, st);
    forall i | 0 <= i < |setup.mapping|
      ensures setup.Ref(target, i) == setup.Ref(setup.elements[0], i) + (x + s * (y - x)) * direction[i]
    {
      TargetGap(setup, st, i);
      MixOnLine(x, y, s, direction[i]);
    }
    assert OnLine(setup, direction, target, x + s * (y - x));
  }

  lemma BentOnLine(setup: Setup, direction: seq<real>, last: Element, target: Element, aim: Element)
    requires setup.Valid() && |direction| == |setup.mapping|
    requires LiesOn(setup, direction, last) && LiesOn(setup, direction, target) && LiesOn(setup, direction, aim)
    ensures LiesOn(setup, direction, Bent(setup, last, target, aim))
  {
    hide BendScale, Bent;
    var x :| OnLine(setup, direction, last, x);
    var y :| OnLine(setup, direction, target, y);
    var z :| OnLine(setup, direction, aim, z);
    var a, bent := BendScale(setup, last, target, aim), Bent(setup, last, target, aim);
    var move := a * (z - y) + (1.0 - a) * (y - x);
    forall i | 0 <= i < |setup.mapping|
      ensures setup.Ref(bent, i) == setup.Ref(setup.elements[0], i) + (y + move) * direction[i]
    {
      BentGap(setup, last, target, aim, i);
      GapOnLine(setup, direction, last, target, x, y, i);
      GapOnLine(setup, direction, target, aim, y, z, i);
      SumOnLine(a, z - y, 1.0 - a, y - x, y, direction[i]);
    }
    assert OnLine(setup, direction, bent, y + move);
  }

  lemma SumOnLine(a: real, p: real, b: real, q: real, y: real, w: real)
    ensures y * w + (a * (p * w) + b * (q * w)) == (y + (a * p + b * q)) * w
  {
    Reassociate(a, p, w);
    Reassociate(b, q, w);
  }

  /** Along the line the clamp brings the next move closer to the previous one, whichever joint forces it. */
  lemma MoveApproaches(setup: Setup, direction: seq<real>, before: Element, st: State, x: real, y: real, z: real)
    requires setup.Valid() && |direction| == |setup.mapping|
    requires OnLine(setup, direction, before, x) && OnLine(setup, direction, st.last, y)
    requires OnLine(setup, direction, st.next, z)
    requires forall i :: 0 <= i < |setup.mapping| ==> setup.Speed(before, st.last, i) <= setup.maxVelocities[i]
    ensures Approaches(SpeedScale(setup, st.last, st.next), z - y, y - x)
  {
    hide SpeedScale, Gap, Abs, OnLine, Approaches, Setup.Speed;
    var s := SpeedScale(setup, st.last, st.next);
    SpeedScaleFits(setup, st.last, st.next, 0);
    if s < 1.0 {
      var i := SpeedScaleIsForced(setup, st.last, st.next);
      GapOnLine(setup, direction, before, st.last, x, y, i);
      GapOnLine(setup, direction, st.last, st.next, y, z, i);
      SpeedOfGap(setup, before, st.last, i);
      SpeedOfGap(setup, st.last, st.next, i);
      ForcedApproaches(Gap(setup, st.last, st.next, i), Gap(setup, before, st.last, i), s, z - y, y - x, direction[i],
                       setup.maxVelocities[i], setup.frequency);
    } else {
      Whole(s, z - y, y - x);
    }
  }

  lemma Whole(s: real, d: real, p: real)
    requires s == 1.0
    ensures Approaches(s, d, p)
  {}

  /** The joint that forces the clamp has a part w in the direction, which can be divided out. */
  lemma ForcedApproaches(next: real, before: real, s: real, d: real, p: real, w: real, v: real, f: real)
    requires next == d * w && before == p * w
    requires 0.0 < f && 0.0 <= s <= 1.0 && 0.0 <= v
    requires Abs(before) * f <= v < Abs(next) * f && s * (Abs(next) * f) == v
    ensures Approaches(s, d, p)
  {
    ClampApproaches(next, before, s, v, f);
    NonZeroDirection(d, w, f, v, next);
    Undirected(s, d, p, w, next, before, s * d, s * next);
  }

  lemma NonZeroDirection(d: real, w: real, f: real, v: real, dw: real)
    requires dw == d * w && 0.0 <= v < Abs(dw) * f
    ensures w != 0.0
  {}

  lemma Undirected(s: real, d: real, p: real, w: real, dw: real, pw: real, sd: real, sdw: real)
    requires dw == d * w && pw == p * w && sd == s * d && sdw == s * dw
    requires w != 0.0 && Abs(sdw - pw) <= Abs(dw - pw)
    ensures Abs(sd - p) <= Abs(d - p)
  {
    hide Abs;
    Reassociate(s, d, w);
    Factored(sd, p, w, sdw, pw);
    Factored(d, p, w, dw, pw);
    AbsPositive(w);
    OrderOfProducts(Abs(sd - p), Abs(d - p), Abs(w), Abs(sdw - pw), Abs(dw - pw));
  }

  lemma ApproachesAlong(s: real, d: real, p: real, w: real, dw: real, pw: real, sdw: real)
    requires dw == d * w && pw == p * w && sdw == s * dw && Approaches(s, d, p)
    ensures Abs(sdw - pw) <= Abs(dw - pw)
  {
    hide Abs;
    Directed(s, d, p, w, dw, pw, s * d, sdw);
  }

  lemma Directed(s: real, d: real, p: real, w: real, dw: real, pw: real, sd: real, sdw: real)
    requires dw == d * w && pw == p * w && sd == s * d && sdw == s * dw
    requires Abs(sd - p) <= Abs(d - p)
    ensures Abs(sdw - pw) <= Abs(dw - pw)
  {
    hide Abs;
    Reassociate(s, d, w);
    Factored(sd, p, w, sdw, pw);
    Factored(d, p, w, dw, pw);
    AbsPositive(w);
    MulMonotone(Abs(sd - p), Abs(d - p), Abs(w));
  }

  /** A part of the direction factors out of a distance along the line. */
  lemma Factored(d: real, p: real, w: real, dw: real, pw: real)
    requires dw == d * w && pw == p * w
    ensures Abs(dw - pw) == Abs(d - p) * Abs(w)
  {
    hide Abs;
    Distribute(d, p, w);
    AbsOf(d - p, w, dw - pw);
  }

  lemma SpeedOfGap(setup: Setup, from: Element, to: Element, i: nat)
    requires setup.Valid() && i < |setup.mapping|
    ensures setup.Speed(from, to, i) == Abs(Gap(setup, from, to, i)) * setup.frequency
  {}

  lemma TargetIsGentle(setup: Setup, direction: seq<real>, st: State, i: nat)
    requires setup.Valid() && Straight(setup, direction) && st.out != [] && Gentle(setup, direction, st)
    requires i < |setup.mapping|
    ensures setup.Acceleration(Before(st), st.last, Target(setup, st), i) <= setup.maxAccelerations[i]
  {
    hide Target, SpeedScale, OnLine, Approaches, Setup.Acceleration, Setup.Speed, Gap, Abs;
    var before, s := Before(st), SpeedScale(setup, st.last, st.next);
    var x :| OnLine(setup, direction, before, x);
    var y :| OnLine(setup, direction, st.last, y);
    var z :| OnLine(setup, direction, st.next, z);
    MoveApproaches(setup, direction, before, st, x, y, z);
    TargetGap(setup, st, i);
    GapOnLine(setup, direction, before, st.last, x, y, i);
    GapOnLine(setup, direction, st.last, st.next, y, z, i);
    ApproachesAlong(s, z - y, y - x, direction[i], Gap(setup, st.last, st.next, i), Gap(setup, before, st.last, i),
                    Gap(setup, st.last, Target(setup, st), i));
    SmallerBend(setup, before, st.last, st.next, Target(setup, st), i);
  }

  lemma SmallerBend(setup: Setup, before: Element, last: Element, next: Element, target: Element, i: nat)
    requires setup.Valid() && i < |setup.mapping|
    requires Abs(Gap(setup, last, target, i) - Gap(setup, before, last, i))
          <= Abs(Gap(setup, last, next, i) - Gap(setup, before, last, i))
    ensures setup.Acceleration(before, last, target, i) <= setup.Acceleration(before, last, next, i)
  {
    AccelerationOfGaps(setup, before, last, target, i);
    AccelerationOfGaps(setup, before, last, next, i);
    hide Abs, Gap, Setup.Acceleration;
    var f := setup.frequency * setup.frequency;
    MulNonNegative(setup.frequency, setup.frequency);
    ProductsInOrder(Abs(Gap(setup, last, target, i) - Gap(setup, before, last, i)),
                    Abs(Gap(setup, last, next, i) - Gap(setup, before, last, i)), f,
                    setup.Acceleration(before, last, target, i), setup.Acceleration(before, last, next, i));
  }

  lemma AccelerationOfGaps(setup: Setup, before: Element, at: Element, after: Element, i: nat)
    requires setup.Valid() && i < |setup.mapping|
    ensures setup.Acceleration(before, at, after, i)
      == Abs(Gap(setup, at, after, i) - Gap(setup, before, at, i)) * (setup.frequency * setup.frequency)
  {
    hide Abs;
    assert setup.Ref(after, i) - 2.0 * setup.Ref(at, i) + setup.Ref(before, i)
      == Gap(setup, at, after, i) - Gap(setup, before, at, i);
  }

  lemma AimOnLine(setup: Setup, direction: seq<real>, st: State)
    requires setup.Valid() && Straight(setup, direction) && LiesOn(setup, direction, st.next)
    ensures LiesOn(setup, direction, Aim(setup, st))
  {
    hide LiesOn, Stays;
  }

  lemma PassStaysGentle(setup: Setup, direction: seq<real>, st: State)
    requires setup.Valid() && Straight(setup, direction) && !setup.forwardOnly && OnTrack(setup, st)
    requires Gentle(setup, direction, st)
    ensures Gentle(setup, direction, Pass(setup, st))
  {
    hide SpeedScale, Target, Bent, Stays, LiesOn, Aim, Setup.Speed, Setup.Acceleration;
    var st', target := Pass(setup, st), Target(setup, st);
    TargetOnLine(setup, direction, st);
    AimOnLine(setup, direction, st);
    BentOnLine(setup, direction, st.last, target, Aim(setup, st));
    PassKeepsTrack(setup, st);
    if st.out == [] {
      FirstTarget(setup);
      StandingStill(setup, target);
    }
    forall i | 0 <= i < |setup.mapping|
      ensures setup.Acceleration(Before(st'), st'.last, st'.next, i) <= setup.maxAccelerations[i]
      ensures setup.Speed(Before(st'), st'.last, i) <= setup.maxVelocities[i]
      ensures st.out != [] ==> setup.Acceleration(Before(st), st.last, target, i) <= setup.maxAccelerations[i]
    {
      BentIsGentle(setup, st.last, target, Aim(setup, st), i);
      if st.out != [] {
        TargetIsGentle(setup, direction, st, i);
        assert setup.Speed(st'.out[|st'.out| - 2], st'.out[|st'.out| - 1], i) <= setup.maxVelocities[i];
      }
    }
  }

  lemma StandingStill(setup: Setup, e: Element)
    requires setup.Valid()
    ensures forall i :: 0 <= i < |setup.mapping| ==> setup.Speed(e, e, i) == 0.0
  {}

  lemma {:induction false} RunStaysGentle(setup: Setup, direction: seq<real>, st: State)
    requires setup.Valid() && setup.Completes() && Anchored(setup, st)
    requires Straight(setup, direction) && !setup.forwardOnly && OnTrack(setup, st) && Gentle(setup, direction, st)
    ensures KeepsAcceleration(setup, Run(setup, st))
    decreases if st.upcoming <= |setup.elements| then |setup.elements| + 1 - st.upcoming else 0, Rank(setup, st)
  {
    hide Pass, Straight;
    if st.upcoming <= |setup.elements| {
      PassProgresses(setup, st);
      PassKeepsTrack(setup, st);
      PassStaysGentle(setup, direction, st);
      RunStaysGentle(setup, direction, Pass(setup, st));
    }
  }

  /** When all elements lie on one straight line the output never exceeds an acceleration limit, however many joints. */
  lemma {:induction false} StraightKeepsAcceleration(setup: Setup, direction: seq<real>)
    requires setup.Valid() && setup.Completes() && Straight(setup, direction) && !setup.forwardOnly
    ensures KeepsAcceleration(setup, Saturated(setup))
  {
    if 2 <= |setup.elements| {
      assert LiesOn(setup, direction, setup.elements[0]);
      RunStaysGentle(setup, direction, Init(setup));
    }
  }

  /** With at most one joint every input is straight, so the output never exceeds an acceleration limit. */
  lemma SaturatedKeepsAcceleration(setup: Setup)
    requires setup.Valid() && setup.Completes() && |setup.mapping| <= 1 && !setup.forwardOnly
    ensures KeepsAcceleration(setup, Saturated(setup))
  {
    var direction := seq(|setup.mapping|, _ => 1.0);
    forall k | 0 <= k < |setup.elements|
      ensures LiesOn(setup, direction, setup.elements[k])
    {
      assert |setup.mapping| == 1 ==>
        OnLine(setup, direction, setup.elements[k], setup.Ref(setup.elements[k], 0) - setup.Ref(setup.elements[0], 0));
      assert |setup.mapping| == 0 ==> OnLine(setup, direction, setup.elements[k], 0.0);
    }
    StraightKeepsAcceleration(setup, direction);
  }

  // ----- Input that already respects the limits -----

  lemma WithinSpeedIsWhole(setup: Setup, last: Element, target: Element)
    requires setup.Valid()
    requires forall i :: 0 <= i < |setup.mapping| ==> setup.Speed(last, target, i) <= setup.maxVelocities[i]
    ensures SpeedScale(setup, last, target) == 1.0
  {
    hide SpeedScale, Setup.Speed;
    SpeedScaleFits(setup, last, target, 0);
    if SpeedScale(setup, last, target) < 1.0 {
      var i := SpeedScaleIsForced(setup, last, target);
    }
  }

  lemma WithinAccelIsUnbent(setup: Setup, last: Element, target: Element, aim: Element)
    requires setup.Valid()
    requires forall i :: 0 <= i < |setup.mapping| ==>
      setup.Acceleration(last, target, aim, i) <= setup.maxAccelerations[i]
    ensures Bent(setup, last, target, aim) == aim
  {
    hide AccelScale, Setup.Acceleration;
    AccelScaleFits(setup, last, target, aim, 0);
    if AccelScale(setup, last, target, aim) < 1.0 {
      var i := AccelScaleIsForced(setup, last, target, aim);
    }
  }

  function NextInput(setup: Setup, upcoming: nat): Element
    requires setup.Valid()
  {
    if upcoming < |setup.elements| then setup.elements[upcoming] else setup.elements[|setup.elements| - 1]
  }

  /** A pass that is within its speed limits pushes the element it aimed at and turns to the next one. */
  lemma CleanPass(setup: Setup, st: State)
    requires setup.Valid()
    requires forall i :: 0 <= i < |setup.mapping| ==> setup.Speed(st.last, st.next, i) <= setup.maxVelocities[i]
    ensures Pass(setup, st)
         == State(st.next, Bent(setup, st.last, st.next, NextInput(setup, st.upcoming)), st.upcoming + 1,
                  st.out + [st.next])
  {
    WithinSpeedIsWhole(setup, st.last, st.next);
  }

  /** Element k of the input, with the first standing for those before it. */
  function Input(setup: Setup, k: int): Element
    requires setup.Valid() && k < |setup.elements|
  {
    if k < 0 then setup.elements[0] else setup.elements[k]
  }

  /** The input starts from rest and keeps every limit. */
  predicate Compliant(setup: Setup)
    requires setup.Valid()
  {
    && KeepsSpeed(setup, setup.elements)
    && forall k, i :: 0 < k < |setup.elements| && 0 <= i < |setup.mapping| ==>
      setup.Acceleration(Input(setup, k - 2), Input(setup, k - 1), Input(setup, k), i) <= setup.maxAccelerations[i]
  }

  /** The loop's state when the first k elements went through unchanged. */
  function Untouched(setup: Setup, k: nat): State
    requires setup.Valid() && k < |setup.elements|
  {
    State(Input(setup, k - 1), setup.elements[k], k + 1, setup.elements[..k])
  }

  lemma UntouchedIsSound(setup: Setup, k: nat)
    requires setup.Valid() && k < |setup.elements| && KeepsSpeed(setup, setup.elements)
    ensures OnTrack(setup, Untouched(setup, k))
    ensures forall i :: 0 <= i < |setup.mapping| ==>
      setup.Speed(Untouched(setup, k).last, Untouched(setup, k).next, i) <= setup.maxVelocities[i]
  {
    hide Setup.Speed;
    StandingStill(setup, setup.elements[0]);
  }

  lemma {:induction false} CompliantPassesThrough(setup: Setup, k: nat)
    requires setup.Valid() && setup.Completes() && k < |setup.elements| && Compliant(setup)
    requires Anchored(setup, Untouched(setup, k))
    ensures Run(setup, Untouched(setup, k)) == setup.elements
    decreases |setup.elements| - k
  {
    hide Setup.Speed, Setup.Acceleration, Bent, SpeedScale, AccelScale;
    var st, aim := Untouched(setup, k), NextInput(setup, k + 1);
    UntouchedIsSound(setup, k);
    CleanPass(setup, st);
    PassProgresses(setup, st);
    if k + 1 < |setup.elements| {
      forall i | 0 <= i < |setup.mapping|
        ensures setup.Acceleration(st.last, st.next, aim, i) <= setup.maxAccelerations[i]
      {
        assert setup.Acceleration(Input(setup, k - 1), Input(setup, k), Input(setup, k + 1), i)
          <= setup.maxAccelerations[i];
      }
      WithinAccelIsUnbent(setup, st.last, st.next, aim);
      assert Pass(setup, st) == Untouched(setup, k + 1);
      CompliantPassesThrough(setup, k + 1);
    } else {
      assert Pass(setup, st).out == setup.elements;
    }
  }

  /** Two moves within the speed limit mix to a move within it. */
  lemma MixKeepsSpeed(setup: Setup, last: Element, target: Element, aim: Element, i: nat)
    requires setup.Valid() && i < |setup.mapping|
    requires setup.Speed(last, target, i) <= setup.maxVelocities[i]
    requires setup.Speed(target, aim, i) <= setup.maxVelocities[i]
    ensures setup.Speed(target, Bent(setup, last, target, aim), i) <= setup.maxVelocities[i]
  {
    hide Bent, BendScale;
    BentGap(setup, last, target, aim, i);
    MixIsWithin(BendScale(setup, last, target, aim), Gap(setup, target, aim, i), Gap(setup, last, target, i),
                setup.frequency, setup.maxVelocities[i]);
  }

  lemma MixIsWithin(a: real, x: real, y: real, f: real, v: real)
    requires 0.0 <= a <= 1.0 && 0.0 < f && Abs(x) * f <= v && Abs(y) * f <= v
    ensures Abs(a * x + (1.0 - a) * y) * f <= v
  {
    hide Abs;
    var part, rest := a * x, (1.0 - a) * y;
    SumIsNoLonger(part + rest, part, rest);
    AbsScaled(a, x, part);
    AbsScaled(1.0 - a, y, rest);
    BoundOfMix(Abs(part + rest), a, Abs(x), Abs(y), f, v, Abs(part), Abs(rest));
  }

  lemma BoundOfMix(mix: real, a: real, x: real, y: real, f: real, v: real, part: real, rest: real)
    requires 0.0 <= a <= 1.0 && 0.0 < f && x * f <= v && y * f <= v
    requires part == a * x && rest == (1.0 - a) * y && mix <= part + rest
    ensures mix * f <= v
  {
    ShareOfBound(a, x, f, v, part);
    ShareOfBound(1.0 - a, y, f, v, rest);
    Distribute(part, rest, f);
    Distribute(a, 1.0 - a, v);
    MulMonotone(mix, part + rest, f);
  }

  lemma ShareOfBound(a: real, x: real, f: real, v: real, part: real)
    requires 0.0 <= a && x * f <= v && part == a * x
    ensures part * f <= a * v
  {
    Reassociate(a, x, f);
    MulMonotone(x * f, v, a);
  }

  /** If the run gives back the input, the next element was not bent, and keeps the acceleration limits. */
  lemma {:induction false} UnchangedIsCompliant(setup: Setup, k: nat, i: nat)
    requires setup.Valid() && setup.Completes() && !setup.forwardOnly && KeepsSpeed(setup, setup.elements)
    requires k + 1 < |setup.elements|
    requires Anchored(setup, Untouched(setup, k)) && Run(setup, Untouched(setup, k)) == setup.elements
    ensures Pass(setup, Untouched(setup, k)) == Untouched(setup, k + 1)
    ensures Anchored(setup, Untouched(setup, k + 1))
    ensures i < |setup.mapping| ==>
      setup.Acceleration(Input(setup, k - 1), Input(setup, k), Input(setup, k + 1), i) <= setup.maxAccelerations[i]
  {
    hide Setup.Speed, Setup.Acceleration, Bent, SpeedScale, AccelScale;
    var st := Untouched(setup, k);
    var aim := setup.elements[k + 1];
    var bent := Bent(setup, st.last, st.next, aim);
    UntouchedIsSound(setup, k);
    CleanPass(setup, st);
    PassProgresses(setup, st);
    PassKeepsTrack(setup, st);
    var st' := Pass(setup, st);
    forall j | 0 <= j < |setup.mapping|
      ensures setup.Speed(st'.last, st'.next, j) <= setup.maxVelocities[j]
    {
      MixKeepsSpeed(setup, st.last, st.next, aim, j);
    }
    CleanPass(setup, st');
    PassProgresses(setup, st');
    PassKeepsTrack(setup, st');
    RunKeepsTrack(setup, Pass(setup, st'));
    assert Pass(setup, st').out[k + 1] == bent;
    if i < |setup.mapping| {
      BentIsGentle(setup, st.last, st.next, aim, i);
    }
  }

  lemma {:induction false} UnchangedReaches(setup: Setup, k: nat)
    requires setup.Valid() && setup.Completes() && !setup.forwardOnly && k < |setup.elements|
    requires 2 <= |setup.elements| && Saturated(setup) == setup.elements
    ensures KeepsSpeed(setup, setup.elements) && Anchored(setup, Untouched(setup, k))
    ensures Run(setup, Untouched(setup, k)) == setup.elements
  {
    hide Setup.Speed;
    SaturatedKeepsSpeed(setup);
    if k == 0 {
      assert Untouched(setup, 0) == Init(setup);
    } else {
      UnchangedReaches(setup, k - 1);
      UnchangedIsCompliant(setup, k - 1, 0);
      UntouchedIsSound(setup, k);
    }
  }

  lemma UnchangedMeansCompliant(setup: Setup)
    requires setup.Valid() && setup.Completes() && !setup.forwardOnly
    requires 2 <= |setup.elements| && Saturated(setup) == setup.elements
    ensures Compliant(setup)
  {
    hide Setup.Speed, Setup.Acceleration, Saturated, Run;
    UnchangedReaches(setup, 0);
    forall k, i | 0 < k < |setup.elements| && 0 <= i < |setup.mapping|
      ensures setup.Acceleration(Input(setup, k - 2), Input(setup, k - 1), Input(setup, k), i)
           <= setup.maxAccelerations[i]
    {
      UnchangedReaches(setup, k - 1);
      UnchangedIsCompliant(setup, k - 1, i);
    }
  }

  /** Saturating changes nothing exactly when the input starts from rest and keeps every limit. */
  lemma SaturatedIsIdentity(setup: Setup)
    requires setup.Valid() && setup.Completes() && !setup.forwardOnly
    ensures Saturated(setup) == setup.elements <==> Compliant(setup)
  {
    hide Setup.Speed, Setup.Acceleration, Run;
    if 2 <= |setup.elements| {
      if Compliant(setup) {
        assert Untouched(setup, 0) == Init(setup);
        CompliantPassesThrough(setup, 0);
      }
      if Saturated(setup) == setup.elements {
        UnchangedMeansCompliant(setup);
      }
    } else {
      assert setup.elements == [setup.elements[0]];
    }
  }

  // ----- Acceleration, with several joints -----

  function Point(mapping: seq<nat>, x: real, y: real): Element
    requires DistinctJoints(mapping) && 2 <= |mapping|
  {
    ZeroElement().(references := Patch(ZeroElement().references, mapping[..2], [x, y], 2))
  }

  /** The first joint cruises at two units a tick when the second one forces a slow step on both. */
  function Conflict(mapping: seq<nat>): (setup: Setup)
    requires DistinctJoints(mapping) && 2 <= |mapping|
    ensures setup.Valid()
  {
    Setup([Point(mapping, 0.0, 0.0), Point(mapping, 1.0, 0.0), Point(mapping, 3.0, 0.0), Point(mapping, 5.0, 4.0)],
          Ones(|mapping|)[0 := 10.0], Ones(|mapping|)[1 := 100.0], 1.0, mapping, false)
  }

  function Ones(n: nat): (ones: seq<real>)
    ensures |ones| == n && forall i :: 0 <= i < n ==> ones[i] == 1.0
  {
    if n == 0 then [] else Ones(n - 1) + [1.0]
  }

  /** Where the conflict puts each joint. */
  predicate ConflictFacts(setup: Setup) {
    && setup.Valid() && 2 <= |setup.mapping| && |setup.elements| == 4 && !setup.forwardOnly && setup.frequency == 1.0
    && (forall i :: 0 <= i < |setup.mapping| ==> setup.maxVelocities[i] == if i == 0 then 10.0 else 1.0)
    && (forall i :: 0 <= i < |setup.mapping| ==> setup.maxAccelerations[i] == if i == 1 then 100.0 else 1.0)
    && (forall k, i :: 0 <= k < 4 && 0 <= i < |setup.mapping| ==> setup.Ref(setup.elements[k], i) == ConflictRef(k, i))
  }

  function ConflictRef(k: int, i: nat): real {
    if i == 0 then (if k <= 0 then 0.0 else if k == 1 then 1.0 else if k == 2 then 3.0 else 5.0)
    else if i == 1 && k == 3 then 4.0 else 0.0
  }

  lemma ConflictHolds(mapping: seq<nat>)
    requires DistinctJoints(mapping) && 2 <= |mapping|
    ensures ConflictFacts(Conflict(mapping))
  {
    forall x, y, i | 0 <= i < |mapping|
      ensures Conflict(mapping).Ref(Point(mapping, x, y), i) == if i == 0 then x else if i == 1 then y else 0.0
    {
      PointRef(mapping, x, y, i);
    }
  }

  lemma PointRef(mapping: seq<nat>, x: real, y: real, i: nat)
    requires DistinctJoints(mapping) && 2 <= |mapping| && i < |mapping|
    ensures Point(mapping, x, y).references[mapping[i]] == if i == 0 then x else if i == 1 then y else 0.0
  {
    if i < 2 {
      PatchAt(ZeroElement().references, mapping[..2], [x, y], 2, i);
    } else {
      PatchElsewhere(ZeroElement().references, mapping[..2], [x, y], 2, mapping[i]);
    }
  }

  lemma ConflictIsMild(setup: Setup, k: nat, i: nat)
    requires ConflictFacts(setup) && k < 4 && i < |setup.mapping|
    ensures k < 3 ==> setup.Speed(Input(setup, k - 1), Input(setup, k), i) <= setup.maxVelocities[i]
    ensures 0 < k ==>
      setup.Acceleration(Input(setup, k - 2), Input(setup, k - 1), Input(setup, k), i) <= setup.maxAccelerations[i]
  {
    assert forall m: int :: m < 4 ==> setup.Ref(Input(setup, m), i) == ConflictRef(m, i);
  }

  /** The first three points of the conflict go through unchanged. */
  lemma {:induction false} ConflictStarts(setup: Setup, k: nat)
    requires ConflictFacts(setup) && k <= 3
    ensures Passes(setup, k) == Untouched(setup, k)
  {
    hide Bent, Target, Setup.Speed, Setup.Acceleration;
    if 0 < k {
      ConflictStarts(setup, k - 1);
      var st := Untouched(setup, k - 1);
      forall i | 0 <= i < |setup.mapping|
        ensures setup.Speed(st.last, st.next, i) <= setup.maxVelocities[i]
        ensures setup.Acceleration(st.last, st.next, setup.elements[k], i) <= setup.maxAccelerations[i]
      {
        ConflictIsMild(setup, k - 1, i);
        ConflictIsMild(setup, k, i);
      }
      CleanPass(setup, st);
      WithinAccelIsUnbent(setup, st.last, st.next, setup.elements[k]);
    }
  }

  /** The second joint's speed limit then stops the first joint short. */
  lemma ConflictEnds(setup: Setup)
    requires ConflictFacts(setup)
    ensures setup.maxAccelerations[0]
          < setup.Acceleration(setup.elements[1], setup.elements[2], Target(setup, Untouched(setup, 3)), 0)
  {
    hide SpeedScale, Target;
    var st := Untouched(setup, 3);
    assert Gap(setup, st.last, st.next, 0) == 2.0 && Gap(setup, st.last, st.next, 1) == 4.0;
    SpeedScaleFits(setup, st.last, st.next, 1);
    TargetGap(setup, st, 0);
  }

  lemma ConflictIsStill(setup: Setup)
    requires ConflictFacts(setup)
    ensures setup.Completes()
  {}

  lemma {:induction false} RunFollowsPasses(setup: Setup, k: nat)
    requires setup.Valid() && setup.Completes()
    requires 0 < k ==> Passes(setup, k - 1).upcoming <= |setup.elements|
    ensures Anchored(setup, Passes(setup, k)) && OnTrack(setup, Passes(setup, k))
    ensures Run(setup, Init(setup)) == Run(setup, Passes(setup, k))
  {
    hide Pass, Bent, Target, Setup.Speed;
    if 0 < k {
      var before := Passes(setup, k - 1);
      if 1 < k {
        PassKeepsUpcoming(setup, Passes(setup, k - 2));
      }
      RunFollowsPasses(setup, k - 1);
      PassProgresses(setup, before);
      PassKeepsTrack(setup, before);
    }
  }

  lemma PassKeepsUpcoming(setup: Setup, st: State)
    requires setup.Valid()
    ensures st.upcoming <= Pass(setup, st).upcoming
  {}

  /** With two joints or more the speed limit of one can break the acceleration limit of another. */
  lemma ConflictBreaksAcceleration(setup: Setup)
    requires ConflictFacts(setup)
    ensures setup.Completes()
    ensures !KeepsAcceleration(setup, Saturated(setup))
  {
    hide Target, Bent, Setup.Acceleration, Setup.Speed;
    var st, out := Untouched(setup, 3), Saturated(setup);
    ConflictIsStill(setup);
    ConflictStarts(setup, 3);
    RunFollowsPasses(setup, 4);
    RunKeepsTrack(setup, Passes(setup, 4));
    assert Passes(setup, 4) == Pass(setup, st);
    assert out[1] == setup.elements[1] && out[2] == setup.elements[2] && out[3] == Target(setup, st);
    ConflictEnds(setup);
  }

  predicate AccelerationKept(setup: Setup) {
    setup.Valid() && setup.Completes() && !setup.forwardOnly ==> KeepsAcceleration(setup, Saturated(setup))
  }

  /** A choice of joints keeps its acceleration limits on every input exactly when it is at most one joint. */
  lemma AccelerationKeptIffOneJoint(mapping: seq<nat>)
    requires DistinctJoints(mapping)
    ensures (forall setup: Setup :: setup.mapping == mapping ==> AccelerationKept(setup)) <==> |mapping| <= 1
  {
    if |mapping| <= 1 {
      forall setup: Setup | setup.mapping == mapping
        ensures AccelerationKept(setup)
      {
        if setup.Valid() && setup.Completes() && !setup.forwardOnly {
          SaturatedKeepsAcceleration(setup);
        }
      }
    } else {
      ConflictHolds(mapping);
      ConflictBreaksAcceleration(Conflict(mapping));
      assert !AccelerationKept(Conflict(mapping));
    }
  }

  // ----- The loop itself -----

  /** The running minimum, over one table of values and its limits. */
  method FindScale(values: seq<real>, limits: seq<real>) returns (scale: real)
    requires Scalable(values, limits)
    ensures scale == LimitScale(values, limits, |values|)
  {
    scale := 1.0;
    var i := 0;
    while i < |values|
      invariant 0 <= i <= |values|
      invariant scale == LimitScale(values, limits, i)
    {
      if limits[i] < values[i] {
        var candidate := limits[i] / values[i];
        if candidate < scale {
          scale := candidate;
        }
      }
      i := i + 1;
    }
  }

  /** Moves the target to the fraction s of the way from the last element, joint by joint. */
  method ScaleTarget(setup: Setup, last: Element, next: Element, s: real) returns (target: Element)
    requires setup.Valid()
    ensures target == setup.WithValues(next, setup.ScaledMove(last, next, s))
  {
    hide Toward;
    target := next;
    ghost var values := setup.ScaledMove(last, next, s);
    var i := 0;
    while i < |setup.mapping|
      invariant 0 <= i <= |setup.mapping|
      invariant target == next.(references := Patch(next.references, setup.mapping, values, i))
    {
      var index := setup.mapping[i];
      var q, qLast := target.references[index], last.references[index];
      PatchAt(next.references, setup.mapping, values, i, i);
      target := target.(references := target.references[index := Toward(s, q, qLast)]);
      i := i + 1;
    }
  }

  /** False when the next element is more than one speed-limited step beyond the target. */
  method MaySkip(setup: Setup, target: Element, next: Element) returns (skip: bool)
    requires setup.Valid()
    ensures skip <==> !setup.TooFast(target, next)
  {
    skip := true;
    var i := 0;
    while i < |setup.mapping|
      invariant 0 <= i <= |setup.mapping|
      invariant skip
      invariant forall j :: 0 <= j < i ==> setup.Speed(target, next, j) <= setup.maxVelocities[j]
    {
      var index := setup.mapping[i];
      if setup.maxVelocities[i] < Abs(next.references[index] - target.references[index]) * setup.frequency {
        return false;
      }
      i := i + 1;
    }
  }

  /** Scales the acceleration towards the next element by a, joint by joint; a forward-only run gives up when a joint
      overshoots. */
  method ScaleBend(setup: Setup, last: Element, target: Element, next: Element, a: real)
    returns (overshot: bool, potential: Element)
    requires setup.Valid()
    ensures overshot <==> setup.forwardOnly && setup.Overshoots(target, next, setup.ScaledBend(last, target, next, a))
    ensures !overshot ==> potential == setup.WithValues(next, setup.ScaledBend(last, target, next, a))
  {
    hide BendTo, InRange;
    ghost var values := setup.ScaledBend(last, target, next, a);
    overshot, potential := false, next;
    var i := 0;
    while i < |setup.mapping|
      invariant 0 <= i <= |setup.mapping|
      invariant !overshot
      invariant potential == next.(references := Patch(next.references, setup.mapping, values, i))
      invariant setup.forwardOnly ==>
        forall j :: 0 <= j < i ==> InRange(setup.Ref(next, j), setup.Ref(target, j), values[j])
    {
      var index := setup.mapping[i];
      var qLast, q, qSaved := last.references[index], target.references[index], next.references[index];
      PatchAt(next.references, setup.mapping, values, i, i);
      var qNext := BendTo(a, potential.references[index], q, qLast);
      potential := potential.(references := potential.references[index := qNext]);
      if setup.forwardOnly && !InRange(qSaved, q, qNext) {
        assert !InRange(setup.Ref(next, i), setup.Ref(target, i), values[i]);
        return true, potential;
      }
      i := i + 1;
    }
  }

  /** Limits the acceleration towards the next element, unless that would overshoot. */
  method BendNext(setup: Setup, last: Element, target: Element, next: Element) returns (bent: Element)
    requires setup.Valid()
    ensures bent == Bent(setup, last, target, next)
  {
    hide LimitScale, Setup.Acceleration, Setup.Overshoots;
    var a := FindScale(setup.Accelerations(last, target, next), setup.maxAccelerations);
    bent := next;
    if a < 1.0 {
      var overshot, potential := ScaleBend(setup, last, target, next, a);
      if !overshot {
        bent := potential;
      }
    }
  }

  /** `saturate`, on inputs it terminates for. */
  method Saturate(setup: Setup) returns (newElements: seq<Element>)
    requires setup.Valid() && setup.Completes()
    ensures newElements == Saturated(setup)
  {
    newElements := [];
    if |setup.elements| < 2 {
      return newElements + [setup.elements[0]];
    }
    var lastElement, target, nextElement := setup.elements[0], setup.elements[0], setup.elements[0];
    var upcomingIndex := 1;
    while upcomingIndex <= |setup.elements|
      invariant target == nextElement
      invariant Anchored(setup, State(lastElement, nextElement, upcomingIndex, newElements))
      invariant Saturated(setup) == Run(setup, State(lastElement, nextElement, upcomingIndex, newElements))
      decreases if upcomingIndex <= |setup.elements| then |setup.elements| + 1 - upcomingIndex else 0,
                Rank(setup, State(lastElement, nextElement, upcomingIndex, newElements))
    {
      ghost var st := State(lastElement, nextElement, upcomingIndex, newElements);
      PassProgresses(setup, st);
      var s := FindScale(setup.Speeds(lastElement, target), setup.maxVelocities);
      if s < 1.0 {
        target := ScaleTarget(setup, lastElement, target, s);
      }
      newElements := newElements + [target];
      if upcomingIndex < |setup.elements| + 1 {
        var skipNext := true;
        if s < 1.0 {
          skipNext := MaySkip(setup, target, nextElement);
        }
        if skipNext {
          nextElement := if upcomingIndex < |setup.elements| then setup.elements[upcomingIndex]
                         else setup.elements[|setup.elements| - 1];
          upcomingIndex := upcomingIndex + 1;
        }
      }
      nextElement := BendNext(setup, lastElement, target, nextElement);
      lastElement := target;
      target := nextElement;
      assert State(lastElement, nextElement, upcomingIndex, newElements) == Pass(setup, st);
    }
  }
}
