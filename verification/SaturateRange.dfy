/** Whether a saturated trajectory stays among its waypoints (`saturate` in HuboPath/src/Trajectory.cpp). */
module SaturationRange {
  import opened RealArith
  import opened PathTypes
  import opened Saturation
  import opened SaturationEnd

  /** An element's mapped joints are between the bounds. */
  predicate Inside(setup: Setup, e: Element, lo: seq<real>, hi: seq<real>)
    requires setup.Valid() && |lo| == |hi| == |setup.mapping|
  {
    forall i :: 0 <= i < |setup.mapping| ==> lo[i] <= setup.Ref(e, i) <= hi[i]
  }

  predicate AllInside(setup: Setup, out: seq<Element>, lo: seq<real>, hi: seq<real>)
    requires setup.Valid() && |lo| == |hi| == |setup.mapping|
  {
    forall k :: 0 <= k < |out| ==> Inside(setup, out[k], lo, hi)
  }

  /** The acceleration it takes to turn from a move at speed v to any move within a range. */
  function Turn(range: real, v: real, f: real): real {
    range * (f * f) + v * f
  }

  /** Every joint may accelerate enough to turn from any allowed move to any move between the bounds. */
  predicate Roomy(setup: Setup, lo: seq<real>, hi: seq<real>)
    requires setup.Valid() && |lo| == |hi| == |setup.mapping|
  {
    forall i :: 0 <= i < |setup.mapping| ==>
      Turn(hi[i] - lo[i], setup.maxVelocities[i], setup.frequency) <= setup.maxAccelerations[i]
  }

  lemma TargetInside(setup: Setup, st: State, lo: seq<real>, hi: seq<real>)
    requires setup.Valid() && |lo| == |hi| == |setup.mapping|
    requires Inside(setup, st.last, lo, hi) && Inside(setup, st.next, lo, hi)
    ensures Inside(setup, Target(setup, st), lo, hi)
  {
    hide SpeedScale, Target;
    forall i | 0 <= i < |setup.mapping|
      ensures lo[i] <= setup.Ref(Target(setup, st), i) <= hi[i]
    {
      TargetGap(setup, st, i);
      SpeedScaleFits(setup, st.last, st.next, i);
      PartWayInside(SpeedScale(setup, st.last, st.next), setup.Ref(st.last, i), setup.Ref(st.next, i),
                    setup.Ref(Target(setup, st), i), lo[i], hi[i]);
    }
  }

  lemma PartWayInside(s: real, from: real, to: real, mid: real, lo: real, hi: real)
    requires 0.0 <= s <= 1.0 && lo <= from <= hi && lo <= to <= hi && mid - from == s * (to - from)
    ensures lo <= mid <= hi
  {
    if from <= to {
      MulNonNegative(s, to - from);
      MulNonNegative(1.0 - s, to - from);
    } else {
      MulNonNegative(s, from - to);
      MulNonNegative(1.0 - s, from - to);
    }
  }

  lemma AimInside(setup: Setup, st: State, lo: seq<real>, hi: seq<real>)
    requires setup.Valid() && |lo| == |hi| == |setup.mapping|
    requires AllInside(setup, setup.elements, lo, hi) && Inside(setup, st.next, lo, hi)
    ensures Inside(setup, Aim(setup, st), lo, hi)
  {
    hide Stays, Inside;
  }

  /** With room to accelerate no pass bends the aim. */
  lemma RoomyIsUnbent(setup: Setup, st: State, aim: Element, lo: seq<real>, hi: seq<real>)
    requires setup.Valid() && |lo| == |hi| == |setup.mapping| && Roomy(setup, lo, hi)
    requires Inside(setup, Target(setup, st), lo, hi) && Inside(setup, aim, lo, hi)
    ensures Bent(setup, st.last, Target(setup, st), aim) == aim
  {
    hide SpeedScale, Target, Bent, Setup.Speed, Setup.Acceleration, Gap, Abs, Turn;
    var target := Target(setup, st);
    forall i | 0 <= i < |setup.mapping|
      ensures setup.Acceleration(st.last, target, aim, i) <= setup.maxAccelerations[i]
    {
      TargetIsSlow(setup, st, i);
      SpeedOfGap(setup, st.last, target, i);
      AccelerationOfGaps(setup, st.last, target, aim, i);
      GapInside(setup, target, aim, lo, hi, i);
      TurnIsGentle(Gap(setup, target, aim, i), Gap(setup, st.last, target, i), hi[i] - lo[i], setup.maxVelocities[i],
                   setup.frequency, setup.Speed(st.last, target, i), setup.Acceleration(st.last, target, aim, i));
    }
    WithinAccelIsUnbent(setup, st.last, target, aim);
  }

  lemma GapInside(setup: Setup, from: Element, to: Element, lo: seq<real>, hi: seq<real>, i: nat)
    requires setup.Valid() && |lo| == |hi| == |setup.mapping| && i < |setup.mapping|
    requires Inside(setup, from, lo, hi) && Inside(setup, to, lo, hi)
    ensures Abs(Gap(setup, from, to, i)) <= hi[i] - lo[i]
  {}

  lemma TargetIsSlow(setup: Setup, st: State, i: nat)
    requires setup.Valid() && i < |setup.mapping|
    ensures setup.Speed(st.last, Target(setup, st), i) <= setup.maxVelocities[i]
  {
    hide SpeedScale, Target, Setup.Speed;
    TargetGap(setup, st, i);
    SpeedScaleFits(setup, st.last, st.next, i);
    SpeedIsGap(setup, st.last, st.next, st.last, Target(setup, st), SpeedScale(setup, st.last, st.next), i);
  }

  lemma TurnIsGentle(wanted: real, made: real, range: real, v: real, f: real, speed: real, turn: real)
    requires 0.0 < f && Abs(wanted) <= range && speed == Abs(made) * f <= v && turn == Abs(wanted - made) * (f * f)
    ensures turn <= Turn(range, v, f)
  {
    AbsTriangle(wanted, made);
    MulNonNegative(f, f);
    hide Abs;
    MulMonotone(Abs(wanted - made), range + Abs(made), f * f);
    Distribute(range, Abs(made), f * f);
    Reassociate(Abs(made), f, f);
    MulMonotone(speed, v, f);
  }

  lemma {:induction false} RunStaysInside(setup: Setup, st: State, lo: seq<real>, hi: seq<real>)
    requires setup.Valid() && setup.Completes() && Anchored(setup, st)
    requires |lo| == |hi| == |setup.mapping| && Roomy(setup, lo, hi) && AllInside(setup, setup.elements, lo, hi)
    requires Inside(setup, st.last, lo, hi) && Inside(setup, st.next, lo, hi) && AllInside(setup, st.out, lo, hi)
    ensures AllInside(setup, Run(setup, st), lo, hi)
    decreases if st.upcoming <= |setup.elements| then |setup.elements| + 1 - st.upcoming else 0, Rank(setup, st)
  {
    hide Inside, Roomy, Stays, Target, Bent, Aim, Rank;
    if st.upcoming <= |setup.elements| {
      PassProgresses(setup, st);
      TargetInside(setup, st, lo, hi);
      AimInside(setup, st, lo, hi);
      RoomyIsUnbent(setup, st, Aim(setup, st), lo, hi);
      RunStaysInside(setup, Pass(setup, st), lo, hi);
    }
  }

  /** With room to accelerate the output stays within any bounds that the waypoints are within. */
  lemma RoomyStaysInside(setup: Setup, lo: seq<real>, hi: seq<real>)
    requires setup.Valid() && setup.Completes() && |lo| == |hi| == |setup.mapping|
    requires Roomy(setup, lo, hi) && AllInside(setup, setup.elements, lo, hi)
    ensures AllInside(setup, Saturated(setup), lo, hi)
  {
    hide Inside, Roomy;
    if 2 <= |setup.elements| {
      RunStaysInside(setup, Init(setup), lo, hi);
    }
  }

  // ----- One joint: exactly which limits keep every input inside -----

  /** The joint cannot gather more speed than it can lose at once. */
  predicate Tame(v: real, a: real, f: real, range: real) {
    a == 0.0 || v * f <= a || range * (f * f) <= a
  }

  predicate OneJoint(setup: Setup, v: real, a: real, f: real) {
    && setup.Valid() && |setup.mapping| == 1 && !setup.forwardOnly
    && setup.maxVelocities[0] == v && setup.maxAccelerations[0] == a && setup.frequency == f
  }

  /** No pass moves the joint by more than it could stop. */
  lemma MoveIsTame(setup: Setup, st: State, v: real, a: real, f: real, lo: real, hi: real)
    requires OneJoint(setup, v, a, f) && Tame(v, a, f, hi - lo) && Anchored(setup, st)
    requires Inside(setup, st.last, [lo], [hi]) && Inside(setup, Target(setup, st), [lo], [hi])
    ensures Abs(Gap(setup, st.last, Target(setup, st), 0)) * (f * f) <= a
  {
    hide SpeedScale, Target, Abs, Setup.Speed;
    var move := Gap(setup, st.last, Target(setup, st), 0);
    MulNonNegative(f, f);
    if a == 0.0 {
      TargetGap(setup, st, 0);
      RigidIsStill(setup, st);
      StillMove(SpeedScale(setup, st.last, st.next), Gap(setup, st.last, st.next, 0), move, f * f);
    } else if v * f <= a {
      TargetIsSlow(setup, st, 0);
      SpeedOfGap(setup, st.last, Target(setup, st), 0);
      Reassociate(Abs(move), f, f);
      MulMonotone(Abs(move) * f, v, f);
    } else {
      GapInside(setup, st.last, Target(setup, st), [lo], [hi], 0);
      MulMonotone(Abs(move), hi - lo, f * f);
    }
  }

  lemma RigidIsStill(setup: Setup, st: State)
    requires setup.Valid() && |setup.mapping| == 1 && !setup.forwardOnly && setup.maxAccelerations[0] == 0.0
    requires Anchored(setup, st)
    ensures Gap(setup, st.last, st.next, 0) == 0.0
  {
    assert AtRest(setup, st, 0);
  }

  lemma StillMove(s: real, way: real, move: real, f2: real)
    requires way == 0.0 && move == s * way
    ensures Abs(move) * f2 == 0.0
  {}

  /** A single joint is bent to exactly its limit, or not at all. */
  lemma BentIsForced(setup: Setup, last: Element, target: Element, aim: Element)
    requires setup.Valid() && |setup.mapping| == 1 && !setup.forwardOnly
    ensures Bent(setup, last, target, aim) == aim
      || setup.Acceleration(last, target, Bent(setup, last, target, aim), 0) == setup.maxAccelerations[0]
  {
    hide AccelScale, Bend, Setup.Acceleration;
    AccelScaleFits(setup, last, target, aim, 0);
    var a := AccelScale(setup, last, target, aim);
    if a < 1.0 {
      var i := AccelScaleIsForced(setup, last, target, aim);
      BentBend(setup, last, target, aim, 0);
      AccelerationIsBend(setup, last, target, aim, Bent(setup, last, target, aim), a, 0);
    }
  }

  lemma BentInside(setup: Setup, last: Element, target: Element, aim: Element, lo: real, hi: real)
    requires setup.Valid() && |setup.mapping| == 1 && !setup.forwardOnly
    requires Inside(setup, target, [lo], [hi]) && Inside(setup, aim, [lo], [hi])
    requires Abs(Gap(setup, last, target, 0)) * (setup.frequency * setup.frequency) <= setup.maxAccelerations[0]
    ensures Inside(setup, Bent(setup, last, target, aim), [lo], [hi])
  {
    hide BendScale, Bent, Abs, Setup.Acceleration;
    var bent := Bent(setup, last, target, aim);
    BentIsForced(setup, last, target, aim);
    if bent != aim {
      var f2 := setup.frequency * setup.frequency;
      MulPositive(setup.frequency, setup.frequency, f2);
      BentGap(setup, last, target, aim, 0);
      AccelerationOfGaps(setup, last, target, bent, 0);
      TurnedBack(BendScale(setup, last, target, aim), Gap(setup, target, aim, 0), Gap(setup, last, target, 0),
                 Gap(setup, target, bent, 0), f2, setup.maxAccelerations[0]);
    }
  }

  /** A move bent by all the limit allows, from one that the limit could stop, stays between standing still and the move
      wanted. */
  lemma TurnedBack(b: real, wanted: real, made: real, bent: real, f2: real, a: real)
    requires 0.0 <= b <= 1.0 && 0.0 < f2 && bent == b * wanted + (1.0 - b) * made
    requires Abs(made) * f2 <= a && Abs(bent - made) * f2 == a
    ensures 0.0 <= bent <= wanted || wanted <= bent <= 0.0
  {
    assert Abs(made) <= Abs(bent - made) by {
      hide Abs;
      OrderOfProducts(Abs(made), Abs(bent - made), f2, Abs(made) * f2, a);
    }
    BetweenMoves(b, wanted, made, bent);
  }

  lemma BetweenMoves(b: real, wanted: real, made: real, bent: real)
    requires 0.0 <= b <= 1.0 && bent == b * wanted + (1.0 - b) * made
    ensures made <= bent <= wanted || wanted <= bent <= made
  {
    if made <= wanted {
      MulNonNegative(b, wanted - made);
      MulNonNegative(1.0 - b, wanted - made);
    } else {
      MulNonNegative(b, made - wanted);
      MulNonNegative(1.0 - b, made - wanted);
    }
  }

  lemma {:induction false} RunStaysTame(setup: Setup, st: State, v: real, a: real, f: real, lo: real, hi: real)
    requires OneJoint(setup, v, a, f) && Tame(v, a, f, hi - lo) && setup.Completes() && Anchored(setup, st)
    requires AllInside(setup, setup.elements, [lo], [hi]) && AllInside(setup, st.out, [lo], [hi])
    requires Inside(setup, st.last, [lo], [hi]) && Inside(setup, st.next, [lo], [hi])
    ensures AllInside(setup, Run(setup, st), [lo], [hi])
    decreases if st.upcoming <= |setup.elements| then |setup.elements| + 1 - st.upcoming else 0, Rank(setup, st)
  {
    hide Inside, Tame, Stays, Target, Bent, Aim, Rank, Anchored, Abs, Gap;
    if st.upcoming <= |setup.elements| {
      PassProgresses(setup, st);
      TargetInside(setup, st, [lo], [hi]);
      AimInside(setup, st, [lo], [hi]);
      MoveIsTame(setup, st, v, a, f, lo, hi);
      BentInside(setup, st.last, Target(setup, st), Aim(setup, st), lo, hi);
      RunStaysTame(setup, Pass(setup, st), v, a, f, lo, hi);
    }
  }

  lemma TameStaysInside(setup: Setup, v: real, a: real, f: real, lo: real, hi: real)
    requires OneJoint(setup, v, a, f) && Tame(v, a, f, hi - lo) && setup.Completes()
    requires AllInside(setup, setup.elements, [lo], [hi])
    ensures AllInside(setup, Saturated(setup), [lo], [hi])
  {
    hide Inside, Tame;
    if 2 <= |setup.elements| {
      RunStaysTame(setup, Init(setup), v, a, f, lo, hi);
    }
  }

  // ----- An input that overshoots -----

  function Spot(j: nat, x: real): Element
    requires j < JOINT_MAX
  {
    ZeroElement().(references := ZeroElement().references[j := x])
  }

  function BrakeRef(x: real, d1: real, d2: real, k: int): real {
    if k <= 0 then x else if k == 1 then x + d1 else x + d1 + d2
  }

  /** Joint j moves by d1, then by d2, and is asked to stop at once. */
  function Brake(j: nat, v: real, a: real, f: real, x: real, d1: real, d2: real): (setup: Setup)
    requires j < JOINT_MAX && 0.0 <= v && 0.0 <= a && 0.0 < f
    ensures OneJoint(setup, v, a, f) && setup.mapping == [j] && |setup.elements| == 4
  {
    Setup(seq(4, k => Spot(j, BrakeRef(x, d1, d2, k))), [v], [a], f, [j], false)
  }

  /** The joint may move by d1 and then by d2, but not stop from d2 in one go. */
  predicate TooFast(v: real, a: real, f: real, d1: real, d2: real) {
    && 0.0 <= d1 <= d2 && d1 * f <= v && d2 * f <= v
    && d1 * (f * f) <= a && (d2 - d1) * (f * f) <= a && a < d2 * (f * f)
  }

  predicate Brakes(setup: Setup, v: real, a: real, f: real, x: real, d1: real, d2: real) {
    && OneJoint(setup, v, a, f) && 0.0 < f
    && forall k :: 0 <= k < |setup.elements| ==> setup.Ref(setup.elements[k], 0) == BrakeRef(x, d1, d2, k)
  }

  lemma BrakeIsBrakes(j: nat, v: real, a: real, f: real, x: real, d1: real, d2: real)
    requires j < JOINT_MAX && 0.0 <= v && 0.0 <= a && 0.0 < f
    ensures var setup := Brake(j, v, a, f, x, d1, d2);
      && Brakes(setup, v, a, f, x, d1, d2)
      && Brakes(Shorter(setup), v, a, f, x, d1, d2) && |Shorter(setup).elements| == 3
  {
    hide BrakeRef;
    var setup := Brake(j, v, a, f, x, d1, d2);
    assert forall k :: 0 <= k < 4 ==> setup.elements[k].references[j] == BrakeRef(x, d1, d2, k);
    assert forall k :: 0 <= k < 3 ==> Shorter(setup).elements[k] == setup.elements[k];
  }

  /** Up to the stop the input keeps every limit. */
  lemma BrakesIsMild(setup: Setup, v: real, a: real, f: real, x: real, d1: real, d2: real)
    requires Brakes(setup, v, a, f, x, d1, d2) && TooFast(v, a, f, d1, d2) && |setup.elements| <= 4
    ensures setup.Completes()
    ensures |setup.elements| == 3 ==> Compliant(setup)
  {
    hide Setup.Ref, Abs;
    assert 0.0 < v by { PositiveSpeed(v, a, f, d2); }
    if |setup.elements| == 3 {
      forall k | 0 < k < 3
        ensures setup.Speed(setup.elements[k - 1], setup.elements[k], 0) <= v
        ensures setup.Acceleration(Input(setup, k - 2), Input(setup, k - 1), Input(setup, k), 0) <= a
      {
        BrakeMove(setup, v, a, f, x, d1, d2, k);
      }
    }
  }

  lemma PositiveSpeed(v: real, a: real, f: real, d2: real)
    requires 0.0 <= a < d2 * (f * f) && 0.0 < f && d2 * f <= v
    ensures 0.0 < v
  {
    Reassociate(d2, f, f);
    if v <= 0.0 { MulMonotone(d2 * f, 0.0, f); }
  }

  lemma BrakeMove(setup: Setup, v: real, a: real, f: real, x: real, d1: real, d2: real, k: nat)
    requires Brakes(setup, v, a, f, x, d1, d2) && TooFast(v, a, f, d1, d2) && 0 < k < 3 == |setup.elements|
    ensures setup.Speed(setup.elements[k - 1], setup.elements[k], 0) <= v
    ensures setup.Acceleration(Input(setup, k - 2), Input(setup, k - 1), Input(setup, k), 0) <= a
  {
    hide Setup.Speed, Setup.Acceleration, Gap, Abs;
    BrakeGaps(setup, v, a, f, x, d1, d2, k);
    SpeedOfGap(setup, setup.elements[k - 1], setup.elements[k], 0);
    AccelerationOfGaps(setup, Input(setup, k - 2), Input(setup, k - 1), Input(setup, k), 0);
    AbsOfPositive(d1);
    AbsOfPositive(d2);
    AbsOfPositive(d2 - d1);
  }

  lemma BrakeGaps(setup: Setup, v: real, a: real, f: real, x: real, d1: real, d2: real, k: nat)
    requires Brakes(setup, v, a, f, x, d1, d2) && 0 < k < 3 == |setup.elements|
    ensures Gap(setup, Input(setup, k - 1), Input(setup, k), 0) == if k == 1 then d1 else d2
    ensures Gap(setup, Input(setup, k - 2), Input(setup, k - 1), 0) == if k == 1 then 0.0 else d1
  {
    assert setup.Ref(setup.elements[0], 0) == BrakeRef(x, d1, d2, 0);
    assert setup.Ref(setup.elements[1], 0) == BrakeRef(x, d1, d2, 1);
    assert setup.Ref(setup.elements[2], 0) == BrakeRef(x, d1, d2, 2);
  }

  lemma AbsOfPositive(x: real)
    requires 0.0 <= x
    ensures Abs(x) == x
  {}

  /** The output goes beyond every waypoint. */
  lemma {:induction false} BrakeOvershoots(j: nat, v: real, a: real, f: real, x: real, d1: real, d2: real)
    requires j < JOINT_MAX && 0.0 <= v && 0.0 <= a && 0.0 < f && TooFast(v, a, f, d1, d2)
    ensures var setup := Brake(j, v, a, f, x, d1, d2);
      && setup.Completes() && AllInside(setup, setup.elements, [x], [x + d1 + d2])
      && Saturated(setup) != [] && x + d1 + d2 < setup.Ref(Last(Saturated(setup)), 0)
  {
    hide Saturated, Run, Turned, SpeedScale, Compliant, Setup.Completes, Brakes, Brake, TooFast, BrakeRef;
    var setup := Brake(j, v, a, f, x, d1, d2);
    BrakeIsBrakes(j, v, a, f, x, d1, d2);
    BrakesIsMild(setup, v, a, f, x, d1, d2);
    BrakesIsMild(Shorter(setup), v, a, f, x, d1, d2);
    BrakesInside(setup, v, a, f, x, d1, d2);
    var st := SaturatedTurns(setup);
    SaturatedIsIdentity(Shorter(setup));
    TurnedBeyond(setup, st, v, a, f, x, d1, d2);
    var mu := FinalLeg(setup, st);
  }

  lemma BrakesInside(setup: Setup, v: real, a: real, f: real, x: real, d1: real, d2: real)
    requires Brakes(setup, v, a, f, x, d1, d2) && TooFast(v, a, f, d1, d2)
    ensures AllInside(setup, setup.elements, [x], [x + d1 + d2])
  {
    forall k | 0 <= k < |setup.elements|
      ensures Inside(setup, setup.elements[k], [x], [x + d1 + d2])
    {
      assert setup.Ref(setup.elements[k], 0) == BrakeRef(x, d1, d2, k);
    }
  }

  /** Having moved by d2, the joint must move on. */
  lemma TurnedBeyond(setup: Setup, st: State, v: real, a: real, f: real, x: real, d1: real, d2: real)
    requires Brakes(setup, v, a, f, x, d1, d2) && TooFast(v, a, f, d1, d2) && |setup.elements| == 4
    requires Turned(setup, st) && st.out == setup.elements[..3]
    ensures x + d1 + d2 < setup.Ref(st.next, 0) && SpeedScale(setup, st.last, st.next) == 1.0
    ensures st.upcoming == |setup.elements| && Anchored(setup, st)
  {
    hide Bent, BendScale, SpeedScale, Anchored, Abs, Setup.Speed, Setup.Acceleration;
    var before, waypoint := Before(st), Last(setup.elements);
    assert setup.Ref(setup.elements[1], 0) == x + d1 && setup.Ref(setup.elements[2], 0) == x + d1 + d2;
    assert setup.Ref(setup.elements[3], 0) == x + d1 + d2;
    assert Gap(setup, before, st.last, 0) == d2 && Gap(setup, st.last, waypoint, 0) == 0.0;
    BentIsGentle(setup, before, st.last, waypoint, 0);
    AccelerationOfGaps(setup, before, st.last, st.next, 0);
    BentGap(setup, before, st.last, waypoint, 0);
    var b, g := BendScale(setup, before, st.last, waypoint), Gap(setup, st.last, st.next, 0);
    MovesOn(b, g, d2, f, v, a);
    SpeedOfGap(setup, st.last, st.next, 0);
    WithinSpeedIsWhole(setup, st.last, st.next);
  }

  lemma MovesOn(b: real, g: real, d2: real, f: real, v: real, a: real)
    requires 0.0 <= b <= 1.0 && 0.0 < f && 0.0 <= d2 && g == b * 0.0 + (1.0 - b) * d2
    requires Abs(g - d2) * (f * f) <= a < d2 * (f * f) && d2 * f <= v
    ensures 0.0 < g && Abs(g) * f <= v
  {
    MulNonNegative(b, d2);
    assert g == d2 - b * d2;
    assert Abs(g - d2) < d2 by {
      hide Abs;
      MulPositive(f, f, f * f);
      MulCancelStrict(Abs(g - d2), d2, f * f);
    }
    MulMonotone(g, d2, f);
  }

  // ----- Every input with given limits -----

  /** The output stays within the bounds if the waypoints are and the loop ends. */
  predicate StaysWithin(setup: Setup, lo: real, hi: real)
    requires setup.Valid() && |setup.mapping| == 1
  {
    setup.Completes() && AllInside(setup, setup.elements, [lo], [hi]) ==> AllInside(setup, Saturated(setup), [lo], [hi])
  }

  /** Moves that gather more speed than the joint can lose at once, between the bounds. */
  lemma FindTooFast(v: real, a: real, f: real, range: real) returns (d1: real, d2: real)
    requires 0.0 < f && 0.0 <= a && !Tame(v, a, f, range)
    ensures TooFast(v, a, f, d1, d2) && d1 + d2 <= range
  {
    MulPositive(f, f, f * f);
    var f2 := f * f;
    var p, q := a / f2, v / f;
    assert p * f2 == a && q * f == v;
    Reassociate(q, f, f);
    Larger(p, q, range, f2, a, v * f);
    d1 := Smaller(p, Smaller(q - p, (range - p) / 2.0));
    d2 := p + d1;
    MovesFit(p, q, d1, d2, f, f2, a, v);
  }

  function Smaller(x: real, y: real): real {
    if x <= y then x else y
  }

  lemma Larger(p: real, q: real, range: real, f2: real, a: real, vf: real)
    requires 0.0 < f2 && p * f2 == a && q * f2 == vf && 0.0 < a < vf && a < range * f2
    ensures 0.0 < p < q && p < range
  {
    if p <= 0.0 { MulMonotone(p, 0.0, f2); }
    MulCancelStrict(p, q, f2);
    MulCancelStrict(p, range, f2);
  }

  lemma MovesFit(p: real, q: real, d1: real, d2: real, f: real, f2: real, a: real, v: real)
    requires 0.0 < f && f2 == f * f && 0.0 < f2 && p * f2 == a && q * f == v
    requires 0.0 < d1 <= p && d2 == p + d1 <= q
    ensures TooFast(v, a, f, d1, d2)
  {
    MulMonotone(d1, q, f);
    MulMonotone(d2, q, f);
    MulMonotone(d1, p, f2);
    MulStrict(p, d2, f2);
    assert d2 - d1 == p;
  }

  /** For one joint, exactly these limits keep the output of every input inside the bounds of its waypoints: none to
      accelerate, a speed limit that the joint can lose in one step, or bounds no wider than such a step. */
  lemma OneJointStaysInsideIff(j: nat, v: real, a: real, f: real, lo: real, hi: real)
    requires j < JOINT_MAX && 0.0 <= v && 0.0 <= a && 0.0 < f && lo <= hi
    ensures (forall setup: Setup :: OneJoint(setup, v, a, f) && setup.mapping == [j] ==> StaysWithin(setup, lo, hi))
      <==> Tame(v, a, f, hi - lo)
  {
    hide Tame, AllInside, Saturated, Setup.Completes, Brake, TooFast;
    if Tame(v, a, f, hi - lo) {
      forall setup: Setup | OneJoint(setup, v, a, f) && setup.mapping == [j]
        ensures StaysWithin(setup, lo, hi)
      {
        if setup.Completes() && AllInside(setup, setup.elements, [lo], [hi]) {
          TameStaysInside(setup, v, a, f, lo, hi);
        }
      }
    } else {
      var d1, d2 := FindTooFast(v, a, f, hi - lo);
      var setup := Brake(j, v, a, f, hi - d1 - d2, d1, d2);
      BrakeOvershoots(j, v, a, f, hi - d1 - d2, d1, d2);
      LeavesBounds(setup, hi - d1 - d2, lo, hi);
      assert !StaysWithin(setup, lo, hi);
    }
  }

  lemma LeavesBounds(setup: Setup, x: real, lo: real, hi: real)
    requires setup.Valid() && |setup.mapping| == 1 && lo <= x && setup.Completes()
    requires AllInside(setup, setup.elements, [x], [hi])
    requires Saturated(setup) != [] && hi < setup.Ref(Last(Saturated(setup)), 0)
    ensures AllInside(setup, setup.elements, [lo], [hi]) && !AllInside(setup, Saturated(setup), [lo], [hi])
  {
    hide Saturated, Setup.Completes;
    forall k | 0 <= k < |setup.elements|
      ensures Inside(setup, setup.elements[k], [lo], [hi])
    {
      assert Inside(setup, setup.elements[k], [x], [hi]);
    }
    assert !Inside(setup, Saturated(setup)[|Saturated(setup)| - 1], [lo], [hi]);
  }

  /** From 0 by one to 1, by two to 3, and stop: the output goes beyond 3. */
  lemma SuddenStopOvershoots()
    ensures var setup := Brake(0, 10.0, 1.0, 1.0, 0.0, 1.0, 2.0);
      && setup.Completes() && AllInside(setup, setup.elements, [0.0], [3.0])
      && Saturated(setup) != [] && 3.0 < setup.Ref(Last(Saturated(setup)), 0)
  {
    hide Saturated, Setup.Completes, Brake, AllInside;
    BrakeOvershoots(0, 10.0, 1.0, 1.0, 0.0, 1.0, 2.0);
  }
}
