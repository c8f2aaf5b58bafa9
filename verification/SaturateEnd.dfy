/** Where a saturated trajectory ends (`saturate` in HuboPath/src/Trajectory.cpp), and inputs on which it falls short.
    */
module SaturationEnd {
  import opened RealArith
  import opened PathTypes
  import opened Saturation

  function Last(out: seq<Element>): Element
    requires out != []
  {
    out[|out| - 1]
  }

  /** The input without its last waypoint. */
  function Shorter(setup: Setup): (shorter: Setup)
    requires setup.Valid() && 2 <= |setup.elements|
    ensures shorter.Valid()
  {
    setup.(elements := setup.elements[..|setup.elements| - 1])
  }

  lemma ShorterCompletes(setup: Setup)
    requires setup.Valid() && 2 <= |setup.elements| && setup.Completes()
    ensures Shorter(setup).Completes()
  {
    var shorter := Shorter(setup);
    forall k, i |
      0 <= k < |shorter.elements| && 0 <= i < |setup.mapping| && setup.maxVelocities[i] == 0.0 && shorter.Leaves(k, i)
      ensures !setup.forwardOnly && shorter.Blocked(k)
    {
      assert setup.Leaves(k, i);
      var j :| 0 <= j < |setup.mapping| && setup.maxAccelerations[j] == 0.0 && setup.Leaves(k, j);
      assert shorter.Leaves(k, j);
    }
  }

  // ----- The same passes, up to the last waypoint -----

  /** The waypoints play no part in the scales. */
  lemma SameScales(setup: Setup, last: Element, target: Element, aim: Element)
    requires setup.Valid() && 2 <= |setup.elements|
    ensures SpeedScale(Shorter(setup), last, target) == SpeedScale(setup, last, target)
    ensures AccelScale(Shorter(setup), last, target, aim) == AccelScale(setup, last, target, aim)
  {
    hide Setup.Speed, Setup.Acceleration, LimitScale;
    SameSpeeds(setup, last, target);
    SameAccelerations(setup, last, target, aim);
  }

  lemma SameSpeeds(setup: Setup, last: Element, target: Element)
    requires setup.Valid() && 2 <= |setup.elements|
    ensures Shorter(setup).Speeds(last, target) == setup.Speeds(last, target)
  {
    forall i | 0 <= i < |setup.mapping|
      ensures Shorter(setup).Speeds(last, target)[i] == setup.Speeds(last, target)[i]
    {
      assert Shorter(setup).Speed(last, target, i) == setup.Speed(last, target, i);
    }
  }

  lemma SameAccelerations(setup: Setup, last: Element, target: Element, aim: Element)
    requires setup.Valid() && 2 <= |setup.elements|
    ensures Shorter(setup).Accelerations(last, target, aim) == setup.Accelerations(last, target, aim)
  {
    forall i | 0 <= i < |setup.mapping|
      ensures Shorter(setup).Accelerations(last, target, aim)[i] == setup.Accelerations(last, target, aim)[i]
    {
      assert Shorter(setup).Acceleration(last, target, aim, i) == setup.Acceleration(last, target, aim, i);
    }
  }

  lemma SameTarget(setup: Setup, st: State)
    requires setup.Valid() && 2 <= |setup.elements|
    ensures Target(Shorter(setup), st) == Target(setup, st)
    ensures Stays(Shorter(setup), st) == Stays(setup, st)
  {
    hide SpeedScale, Setup.Speed;
    SameScales(setup, st.last, st.next, st.next);
    var s := SpeedScale(setup, st.last, st.next);
    assert Shorter(setup).ScaledMove(st.last, st.next, s) == setup.ScaledMove(st.last, st.next, s);
    SameTooFast(setup, Target(setup, st), st.next);
  }

  lemma SameTooFast(setup: Setup, from: Element, to: Element)
    requires setup.Valid() && 2 <= |setup.elements|
    ensures Shorter(setup).TooFast(from, to) == setup.TooFast(from, to)
  {
    assert forall i :: 0 <= i < |setup.mapping| ==> Shorter(setup).Speed(from, to, i) == setup.Speed(from, to, i);
  }

  lemma SameBent(setup: Setup, last: Element, target: Element, aim: Element)
    requires setup.Valid() && 2 <= |setup.elements| && !setup.forwardOnly
    ensures Bent(Shorter(setup), last, target, aim) == Bent(setup, last, target, aim)
  {
    hide AccelScale;
    SameScales(setup, last, target, aim);
    var a := AccelScale(setup, last, target, aim);
    assert Shorter(setup).ScaledBend(last, target, aim, a) == setup.ScaledBend(last, target, aim, a);
  }

  lemma SamePass(setup: Setup, st: State)
    requires setup.Valid() && 2 <= |setup.elements| && !setup.forwardOnly
    ensures Pass(Shorter(setup), st).out == Pass(setup, st).out
    ensures Pass(Shorter(setup), st).upcoming == Pass(setup, st).upcoming
    ensures Stays(setup, st) || st.upcoming + 1 < |setup.elements| ==> Pass(Shorter(setup), st) == Pass(setup, st)
  {
    hide Target, Bent, Stays;
    SameTarget(setup, st);
    SameBent(setup, st.last, Target(setup, st), Aim(setup, st));
  }
  /** The loop has just turned to the last waypoint. */
  predicate Turned(setup: Setup, st: State)
    requires setup.Valid() && 2 <= |setup.elements|
  {
    && st.upcoming == |setup.elements| && st.out != []
    && OnTrack(setup, st) && Anchored(setup, st)
    && st.next == Bent(setup, Before(st), st.last, Last(setup.elements))
  }

  /** The loop turns to the last waypoint after pushing what it pushes for the waypoints before. */
  lemma {:induction false} RunTurns(setup: Setup, st: State) returns (turned: State)
    requires setup.Valid() && 2 <= |setup.elements| && setup.Completes() && Shorter(setup).Completes()
    requires !setup.forwardOnly
    requires Anchored(setup, st) && Anchored(Shorter(setup), st) && OnTrack(setup, st) && st.upcoming < |setup.elements|
    ensures Turned(setup, turned)
    ensures turned.out == Run(Shorter(setup), st)
    ensures Run(setup, turned) == Run(setup, st)
    decreases |setup.elements| - st.upcoming, Rank(setup, st)
  {
    hide Pass, Stays, Bent, Target, Rank, Anchored, OnTrack, Setup.Completes;
    var st', shorter := Pass(setup, st), Shorter(setup);
    PassProgresses(setup, st);
    PassProgresses(shorter, st);
    PassKeepsTrack(setup, st);
    SamePass(setup, st);
    if st'.upcoming < |setup.elements| {
      PassTurnsLate(setup, st);
      turned := RunTurns(setup, st');
    } else {
      turned := st';
      JustTurned(setup, st);
    }
  }

  lemma PassTurnsLate(setup: Setup, st: State)
    requires setup.Valid() && 2 <= |setup.elements| && Pass(setup, st).upcoming < |setup.elements|
    ensures Stays(setup, st) || st.upcoming + 1 < |setup.elements|
  {
    hide Stays, Target, Bent;
  }

  lemma JustTurned(setup: Setup, st: State)
    requires setup.Valid() && 2 <= |setup.elements| && OnTrack(setup, st)
    requires st.upcoming < |setup.elements| <= Pass(setup, st).upcoming
    ensures var st' := Pass(setup, st);
      && st'.upcoming == |setup.elements| && st'.out != []
      && st'.next == Bent(setup, Before(st'), st'.last, Last(setup.elements))
  {
    hide Stays, Target, Bent;
    if st.out == [] {
      FirstTarget(setup);
    }
  }

  // ----- The final leg -----

  /** Once turned to the last waypoint the loop covers the fraction mu of the way to the element aimed at: all of it
      when that is one step away, and less when it is not. */
  lemma {:induction false} FinalLeg(setup: Setup, st: State) returns (mu: real)
    requires setup.Valid() && setup.Completes() && Anchored(setup, st) && st.upcoming == |setup.elements|
    ensures var out := Run(setup, st);
      && out != []
      && (forall i :: 0 <= i < |setup.mapping| ==>
        Gap(setup, st.last, Last(out), i) == mu * Gap(setup, st.last, st.next, i))
      && (SpeedScale(setup, st.last, st.next) == 1.0 ==> mu == 1.0 && out == st.out + [st.next])
    ensures 0.0 <= mu <= 1.0
    ensures SpeedScale(setup, st.last, st.next) < 1.0 ==> mu < 1.0
    decreases Rank(setup, st)
  {
    hide SpeedScale, Shrinkage, Rank, Stays, Target, Pass, Anchored, Setup.Completes, Gap;
    var s, st' := SpeedScale(setup, st.last, st.next), Pass(setup, st);
    SpeedScaleFits(setup, st.last, st.next, 0);
    PassProgresses(setup, st);
    if Stays(setup, st) {
      StaysTurned(setup, st);
      var c := Shrinkage(setup, st);
      var rest := FinalLeg(setup, st');
      mu := s + rest * c;
      StayFallsShort(setup, st, rest);
      forall i | 0 <= i < |setup.mapping|
        ensures Gap(setup, st.last, Last(Run(setup, st)), i) == mu * Gap(setup, st.last, st.next, i)
      {
        StayingShrinks(setup, st, i);
        TargetGap(setup, st, i);
        PassPushesTarget(setup, st);
        GapsAdd(setup, st.last, st'.last, Last(Run(setup, st)), i);
        TwoLegs(Gap(setup, st.last, st.next, i), Gap(setup, st.last, st'.last, i), Gap(setup, st'.last, st'.next, i),
                Gap(setup, st'.last, Last(Run(setup, st)), i), s, rest, c);
      }
    } else {
      mu := s;
      LastPass(setup, st);
      forall i | 0 <= i < |setup.mapping|
        ensures Gap(setup, st.last, Last(Run(setup, st)), i) == mu * Gap(setup, st.last, st.next, i)
      {
        TargetGap(setup, st, i);
      }
    }
  }

  lemma StaysTurned(setup: Setup, st: State)
    requires setup.Valid() && Stays(setup, st)
    ensures Pass(setup, st).upcoming == st.upcoming
    ensures SpeedScale(setup, st.last, st.next) < 1.0
  {}

  lemma PassPushesTarget(setup: Setup, st: State)
    requires setup.Valid()
    ensures Pass(setup, st).last == Target(setup, st)
  {}

  lemma LastPass(setup: Setup, st: State)
    requires setup.Valid() && setup.Completes() && Anchored(setup, st) && st.upcoming == |setup.elements|
    requires !Stays(setup, st)
    ensures Run(setup, st) == st.out + [Target(setup, st)]
    ensures SpeedScale(setup, st.last, st.next) == 1.0 ==> Target(setup, st) == st.next
  {
    hide SpeedScale, Stays, Bent;
  }

  lemma GapsAdd(setup: Setup, from: Element, mid: Element, to: Element, i: nat)
    requires setup.Valid() && i < |setup.mapping|
    ensures Gap(setup, from, to, i) == Gap(setup, from, mid, i) + Gap(setup, mid, to, i)
  {}

  lemma TwoLegs(way: real, first: real, left: real, second: real, s: real, rest: real, c: real)
    requires first == s * way && left == c * way && second == rest * left
    ensures first + second == (s + rest * c) * way
  {
    Reassociate(rest, c, way);
    Distribute(s, rest * c, way);
  }
  /** A pass that keeps its aim leaves a way that is never quite covered. */
  lemma StayFallsShort(setup: Setup, st: State, rest: real)
    requires setup.Valid() && Stays(setup, st) && 0.0 <= rest <= 1.0
    requires var st' := Pass(setup, st);
      (SpeedScale(setup, st'.last, st'.next) < 1.0 ==> rest < 1.0)
    ensures 0.0 <= SpeedScale(setup, st.last, st.next) + rest * Shrinkage(setup, st) < 1.0
  {
    hide SpeedScale, Shrinkage, Pass;
    var s, c, st' := SpeedScale(setup, st.last, st.next), Shrinkage(setup, st), Pass(setup, st);
    SpeedScaleFits(setup, st.last, st.next, 0);
    StayingIsFar(setup, st);
    StayShrinks(setup, st);
    if c == 1.0 - s {
      WholeShrinkIsFast(setup, st);
    }
    FallsShort(s, rest, c, rest * c);
  }

  lemma FallsShort(s: real, rest: real, c: real, product: real)
    requires 0.0 <= s < 0.5 && 0.0 <= c <= 1.0 - s && 0.0 <= rest <= 1.0 && product == rest * c
    requires c == 1.0 - s ==> rest < 1.0
    ensures 0.0 <= s + product < 1.0
  {
    ShareOf(rest, c, product);
  }

  lemma ShareOf(rest: real, c: real, product: real)
    requires 0.0 <= rest <= 1.0 && 0.0 <= c && product == rest * c
    ensures 0.0 <= product <= c
    ensures rest < 1.0 && 0.0 < c ==> product < c
  {
    MulNonNegative(rest, c);
    MulMonotone(rest, 1.0, c);
    if rest < 1.0 && 0.0 < c {
      MulStrict(rest, 1.0, c);
    }
  }

  /** The bounds of the shrinkage, for any joint or none. */
  lemma StayShrinks(setup: Setup, st: State)
    requires setup.Valid() && Stays(setup, st)
    ensures 0.0 <= Shrinkage(setup, st) <= 1.0 - SpeedScale(setup, st.last, st.next)
  {
    hide SpeedScale, Shrinkage, Stays;
    var i := SpeedScaleIsForcedWhenStaying(setup, st);
    StayingShrinks(setup, st, i);
  }

  lemma SpeedScaleIsForcedWhenStaying(setup: Setup, st: State) returns (i: nat)
    requires setup.Valid() && Stays(setup, st)
    ensures i < |setup.mapping|
  {
    hide SpeedScale;
    i := SpeedScaleIsForced(setup, st.last, st.next);
  }

  /** When the way shrinks by no more than the step taken, it was not bent, and is still too long for one step. */
  lemma WholeShrinkIsFast(setup: Setup, st: State)
    requires setup.Valid() && Stays(setup, st) && Shrinkage(setup, st) == 1.0 - SpeedScale(setup, st.last, st.next)
    ensures var st' := Pass(setup, st); SpeedScale(setup, st'.last, st'.next) < 1.0
  {
    hide SpeedScale, Shrinkage, Target, Gap, Setup.Speed;
    var s, st', target := SpeedScale(setup, st.last, st.next), Pass(setup, st), Target(setup, st);
    var i: nat :| i < |setup.mapping| && setup.maxVelocities[i] < setup.Speed(target, st.next, i);
    TargetGap(setup, st, i);
    StayingShrinks(setup, st, i);
    SameSpeed(setup, target, st.next, st'.last, st'.next, i);
    SpeedScaleFits(setup, st'.last, st'.next, i);
    WholeSpeed(SpeedScale(setup, st'.last, st'.next), setup.Speed(st'.last, st'.next, i), setup.maxVelocities[i]);
  }

  lemma WholeSpeed(s: real, speed: real, limit: real)
    requires 0.0 <= s <= 1.0 && s * speed <= limit < speed
    ensures s < 1.0
  {
    assert s == 1.0 ==> s * speed == speed;
  }

  lemma SameSpeed(setup: Setup, from: Element, to: Element, from': Element, to': Element, i: nat)
    requires setup.Valid() && i < |setup.mapping| && Gap(setup, from, to, i) == Gap(setup, from', to', i)
    ensures setup.Speed(from, to, i) == setup.Speed(from', to', i)
  {}

  // ----- Whether the last waypoint is reached -----

  /** The last waypoint is one allowed step, in speed and acceleration, from what the loop makes of the others. */
  predicate OneStepAway(setup: Setup, out: seq<Element>, waypoint: Element)
    requires setup.Valid() && out != []
  {
    var before := if |out| == 1 then out[0] else out[|out| - 2];
    forall i :: 0 <= i < |setup.mapping| ==>
      && setup.Speed(Last(out), waypoint, i) <= setup.maxVelocities[i]
      && setup.Acceleration(before, Last(out), waypoint, i) <= setup.maxAccelerations[i]
  }

  lemma SaturatedTurns(setup: Setup) returns (turned: State)
    requires setup.Valid() && setup.Completes() && 2 <= |setup.elements| && !setup.forwardOnly
    ensures Shorter(setup).Completes() && Turned(setup, turned)
    ensures turned.out == Saturated(Shorter(setup))
    ensures Run(setup, turned) == Saturated(setup)
  {
    hide Run, Turned, Setup.Completes;
    var shorter := Shorter(setup);
    ShorterCompletes(setup);
    assert Init(shorter) == Init(setup);
    InitialIsSound(setup);
    InitialIsSound(shorter);
    turned := RunTurns(setup, Init(setup));
    if |shorter.elements| == 1 {
      OneElement(shorter);
    }
  }

  lemma InitialIsSound(setup: Setup)
    requires setup.Valid()
    ensures Anchored(setup, Init(setup)) && OnTrack(setup, Init(setup))
  {}

  lemma OneElement(setup: Setup)
    requires setup.Valid() && setup.Completes() && |setup.elements| == 1
    ensures Anchored(setup, Init(setup)) && Run(setup, Init(setup)) == [setup.elements[0]]
  {
    hide Target, Bent;
    FirstTarget(setup);
    PassProgresses(setup, Init(setup));
    InitialDoesNotStay(setup);
  }

  lemma InitialDoesNotStay(setup: Setup)
    requires setup.Valid()
    ensures !Stays(setup, Init(setup))
  {
    hide SpeedScale, Setup.Speed;
    FirstTarget(setup);
    StandingStill(setup, setup.elements[0]);
  }

  /** The trajectory ends at the last waypoint exactly when that is one allowed step from what the loop makes of the
      other waypoints, for any number of joints; and then that step is all it adds. */
  lemma {:induction false} EndsAtLastWaypointIff(setup: Setup)
    requires setup.Valid() && setup.Completes() && 2 <= |setup.elements| && !setup.forwardOnly
    ensures Shorter(setup).Completes()
    ensures var before, out, waypoint := Saturated(Shorter(setup)), Saturated(setup), Last(setup.elements);
      && before != [] && out != []
      && (Last(out) == waypoint <==> OneStepAway(setup, before, waypoint))
      && (OneStepAway(setup, before, waypoint) ==> out == before + [waypoint])
  {
    hide Run, Saturated, OneStepAway, SpeedScale, Setup.Completes;
    var st := SaturatedTurns(setup);
    var mu := FinalLeg(setup, st);
    var waypoint := Last(setup.elements);
    if OneStepAway(setup, st.out, waypoint) {
      OneStepIsWhole(setup, st);
    }
    if Last(Run(setup, st)) == waypoint {
      ArrivalIsOneStep(setup, st, mu);
    }
  }

  lemma OneStepIsWhole(setup: Setup, st: State)
    requires setup.Valid() && 2 <= |setup.elements| && Turned(setup, st)
    requires OneStepAway(setup, st.out, Last(setup.elements))
    ensures st.next == Last(setup.elements) && SpeedScale(setup, st.last, st.next) == 1.0
  {
    hide Setup.Speed, Setup.Acceleration, Bent, SpeedScale, Anchored;
    WithinAccelIsUnbent(setup, Before(st), st.last, Last(setup.elements));
    WithinSpeedIsWhole(setup, st.last, Last(setup.elements));
  }

  /** A leg that ends at the last waypoint was one step to begin with: bending towards a slower previous move cannot
      make up for stopping short. */
  lemma ArrivalIsOneStep(setup: Setup, st: State, mu: real)
    requires setup.Valid() && 2 <= |setup.elements| && !setup.forwardOnly && Turned(setup, st) && 0.0 <= mu <= 1.0
    requires SpeedScale(setup, st.last, st.next) < 1.0 ==> mu < 1.0
    requires SpeedScale(setup, st.last, st.next) == 1.0 ==> mu == 1.0
    requires forall i :: 0 <= i < |setup.mapping| ==>
      Gap(setup, st.last, Last(setup.elements), i) == mu * Gap(setup, st.last, st.next, i)
    ensures OneStepAway(setup, st.out, Last(setup.elements))
  {
    hide SpeedScale, Bent, Gap, Anchored, Setup.Speed, Setup.Acceleration;
    var waypoint, before := Last(setup.elements), Before(st);
    SpeedScaleFits(setup, st.last, st.next, 0);
    if SpeedScale(setup, st.last, st.next) < 1.0 {
      ShortLegMisses(setup, st, mu);
    } else {
      forall i | 0 <= i < |setup.mapping|
        ensures setup.Speed(st.last, waypoint, i) <= setup.maxVelocities[i]
        ensures setup.Acceleration(before, st.last, waypoint, i) <= setup.maxAccelerations[i]
      {
        SpeedScaleFits(setup, st.last, st.next, i);
        BentIsGentle(setup, before, st.last, waypoint, i);
        SamePlace(setup, before, st.last, st.next, waypoint, i);
      }
    }
  }

  lemma SamePlace(setup: Setup, before: Element, at: Element, after: Element, after': Element, i: nat)
    requires setup.Valid() && i < |setup.mapping| && Gap(setup, at, after, i) == Gap(setup, at, after', i)
    ensures setup.Speed(at, after, i) == setup.Speed(at, after', i)
    ensures setup.Acceleration(before, at, after, i) == setup.Acceleration(before, at, after', i)
  {
    assert setup.Ref(after, i) == setup.Ref(after', i);
  }

  lemma ShortLegMisses(setup: Setup, st: State, mu: real)
    requires setup.Valid() && 2 <= |setup.elements| && Turned(setup, st) && 0.0 <= mu < 1.0
    requires forall i :: 0 <= i < |setup.mapping| ==>
      Gap(setup, st.last, Last(setup.elements), i) == mu * Gap(setup, st.last, st.next, i)
    ensures !(SpeedScale(setup, st.last, st.next) < 1.0)
  {
    hide SpeedScale, BendScale, Bent, Gap, Anchored, Setup.Speed, Abs;
    var waypoint, before := Last(setup.elements), Before(st);
    if SpeedScale(setup, st.last, st.next) < 1.0 {
      var i := SpeedScaleIsForced(setup, st.last, st.next);
      BentGap(setup, before, st.last, waypoint, i);
      PreviousIsSlow(setup, st, i);
      SpeedOfGap(setup, st.last, st.next, i);
      SpeedOfGap(setup, before, st.last, i);
      NotLonger(BendScale(setup, before, st.last, waypoint), mu, Gap(setup, st.last, st.next, i),
                Gap(setup, st.last, waypoint, i), Gap(setup, before, st.last, i));
      MulMonotone(Abs(Gap(setup, st.last, st.next, i)), Abs(Gap(setup, before, st.last, i)), setup.frequency);
    }
  }

  lemma PreviousIsSlow(setup: Setup, st: State, i: nat)
    requires setup.Valid() && OnTrack(setup, st) && st.out != [] && i < |setup.mapping|
    ensures setup.Speed(Before(st), st.last, i) <= setup.maxVelocities[i]
  {
    hide Setup.Speed;
    StandingStill(setup, st.last);
  }

  /** A move bent towards a move p, and longer than the move it was bent from, is no longer than p. */
  lemma NotLonger(b: real, mu: real, bent: real, wanted: real, p: real)
    requires 0.0 <= b <= 1.0 && 0.0 <= mu < 1.0
    requires bent == b * wanted + (1.0 - b) * p && wanted == mu * bent
    ensures Abs(bent) <= Abs(p)
  {
    hide Abs;
    var part, rest := b * wanted, (1.0 - b) * p;
    SumIsNoLonger(bent, part, rest);
    AbsScaled(b, wanted, part);
    AbsScaled(1.0 - b, p, rest);
    AbsScaled(mu, bent, wanted);
    AbsPositive(p);
    if Abs(p) < Abs(bent) {
      NoLonger(b, mu, Abs(bent), Abs(wanted), Abs(p), Abs(part), Abs(rest));
    }
  }
  lemma NoLonger(b: real, mu: real, bent: real, wanted: real, p: real, part: real, rest: real)
    requires 0.0 <= b <= 1.0 && 0.0 <= mu < 1.0 && 0.0 <= p < bent
    requires wanted == mu * bent && part == b * wanted && rest == (1.0 - b) * p
    ensures part + rest < bent
  {
    MulStrict(mu, 1.0, bent);
    MixIsShorter(b, bent, wanted, p, part, rest);
  }

  lemma MixIsShorter(b: real, bent: real, wanted: real, p: real, part: real, rest: real)
    requires 0.0 <= b <= 1.0 && p < bent && wanted < bent
    requires part == b * wanted && rest == (1.0 - b) * p
    ensures part + rest < bent
  {
    Split(b, bent, b * bent, (1.0 - b) * bent);
    if b < 1.0 {
      ProductsInOrder(wanted, bent, b, part, b * bent);
      ScaledStrict(1.0 - b, p, bent, rest, (1.0 - b) * bent);
    } else {
      assert b == 1.0;
      WholePart(b, wanted, p, part, rest);
    }
  }

  lemma WholePart(b: real, x: real, y: real, part: real, rest: real)
    requires b == 1.0 && part == b * x && rest == (1.0 - b) * y
    ensures part == x && rest == 0.0
  {}

  lemma Split(b: real, x: real, part: real, rest: real)
    requires part == b * x && rest == (1.0 - b) * x
    ensures part + rest == x
  {}

  lemma ScaledStrict(c: real, x: real, y: real, cx: real, cy: real)
    requires 0.0 < c && x < y && cx == c * x && cy == c * y
    ensures cx < cy
  {
    MulStrict(x, y, c);
  }

  /** An input that keeps every limit ends where it should. */
  lemma CompliantEndsAtLastWaypoint(setup: Setup)
    requires setup.Valid() && setup.Completes() && !setup.forwardOnly && Compliant(setup)
    ensures Saturated(setup) != [] && Last(Saturated(setup)) == Last(setup.elements)
  {
    hide Saturated, Compliant;
    SaturatedIsIdentity(setup);
  }

  // ----- Inputs with one joint -----

  function At(x: real): Element {
    ZeroElement().(references := ZeroElement().references[0 := x])
  }

  /** One joint, from 0 to 1, in one tick. */
  function OneMove(maxVelocity: real, maxAcceleration: real): (setup: Setup)
    requires 0.0 <= maxVelocity && 0.0 <= maxAcceleration
    ensures setup.Valid() && 2 <= |setup.elements|
  {
    Setup([At(0.0), At(1.0)], [maxVelocity], [maxAcceleration], 1.0, [0], false)
  }

  /** With little acceleration the loop ends short of the last waypoint, though it never went too fast. */
  lemma {:induction false} SlowStartFallsShort()
    ensures var setup := OneMove(10.0, 0.1);
      setup.Completes() && Saturated(setup) != [] && Last(Saturated(setup)) != Last(setup.elements)
  {
    hide Saturated;
    var setup := OneMove(10.0, 0.1);
    assert setup.Completes();
    EndsAtLastWaypointIff(setup);
    var before := Saturated(Shorter(setup));
    assert before == [At(0.0)] by { SaturatedOne(Shorter(setup)); }
    NotOneStepAway();
  }

  lemma NotOneStepAway()
    ensures !OneStepAway(OneMove(10.0, 0.1), [At(0.0)], At(1.0))
  {
    var setup := OneMove(10.0, 0.1);
    assert setup.Acceleration(At(0.0), At(0.0), At(1.0), 0) == 1.0;
    assert setup.maxAccelerations[0] == 0.1;
    assert Last([At(0.0)]) == At(0.0);
  }

  lemma SaturatedOne(setup: Setup)
    requires setup.Valid() && setup.Completes() && |setup.elements| == 1
    ensures Saturated(setup) == [setup.elements[0]]
  {}

  /** With no speed at all the loop never ends. */
  lemma NoSpeedNeverEnds()
    ensures !Terminates(OneMove(0.0, 1.0))
  {
    hide Terminates;
    var setup := OneMove(0.0, 1.0);
    TerminatesExactlyWhenComplete(setup);
    assert setup.Leaves(1, 0);
    assert !setup.Blocked(1);
  }
}
