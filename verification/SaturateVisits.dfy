/** How a saturated trajectory goes from waypoint to waypoint (`saturate` in HuboPath/src/Trajectory.cpp). */
module SaturationVisits {
  import opened RealArith
  import opened PathTypes
  import opened Saturation
  import opened SaturationRange

  /** At most one speed-limited step away in every mapped joint. */
  predicate Near(setup: Setup, e: Element, waypoint: Element)
    requires setup.Valid()
  {
    forall i :: 0 <= i < |setup.mapping| ==> setup.Speed(e, waypoint, i) <= setup.maxVelocities[i]
  }

  /** One step straight towards the waypoint: all the way, or as far as some joint's speed limit allows. */
  predicate Heads(setup: Setup, from: Element, to: Element, waypoint: Element, s: real)
    requires setup.Valid()
  {
    && 0.0 <= s <= 1.0
    && (forall i :: 0 <= i < |setup.mapping| ==> Gap(setup, from, to, i) == s * Gap(setup, from, waypoint, i))
    && (forall i :: 0 <= i < |setup.mapping| ==> setup.Speed(from, to, i) <= setup.maxVelocities[i])
    && (s == 1.0 || exists i :: 0 <= i < |setup.mapping| && Capped(setup, from, to, waypoint, i))
  }

  /** Joint i is further from the waypoint than one step, and takes just the step its speed limit allows. */
  predicate Capped(setup: Setup, from: Element, to: Element, waypoint: Element, i: nat)
    requires setup.Valid() && i < |setup.mapping|
  {
    setup.Speed(from, to, i) == setup.maxVelocities[i] < setup.Speed(from, waypoint, i)
  }

  /** What is not mapped is the waypoint's. */
  predicate Carries(setup: Setup, e: Element, waypoint: Element)
    requires setup.Valid()
  {
    && e.phaseIndex == waypoint.phaseIndex
    && forall j :: 0 <= j < JOINT_MAX && j !in setup.mapping ==> e.references[j] == waypoint.references[j]
  }

  ghost predicate StepsTowards(setup: Setup, from: Element, to: Element, waypoint: Element)
    requires setup.Valid()
  {
    Carries(setup, to, waypoint) && exists s :: Heads(setup, from, to, waypoint, s)
  }

  /** Each element of the output goes towards one waypoint: the first towards the first, and every other one towards the
      same as the element before it, or the next if that one was near. */
  ghost predicate Tour(setup: Setup, out: seq<Element>, aims: seq<nat>)
    requires setup.Valid()
  {
    && |aims| == |out|
    && (forall t :: 0 <= t < |aims| ==> aims[t] < |setup.elements|)
    && (out != [] ==> aims[0] == 0 && out[0] == setup.elements[0])
    && (forall t :: 0 < t < |out| ==> aims[t] == Follows(setup, out[t - 1], aims[t - 1]))
    && (forall t :: 0 < t < |out| ==> StepsTowards(setup, out[t - 1], out[t], setup.elements[aims[t]]))
  }

  /** The waypoint aimed at after an element that went towards waypoint k. */
  function Follows(setup: Setup, e: Element, k: nat): nat
    requires setup.Valid() && k < |setup.elements|
  {
    if Near(setup, e, setup.elements[k]) then k + 1 else k
  }

  /** The loop aims at the waypoint that follows. */
  ghost predicate Touring(setup: Setup, st: State, aims: seq<nat>)
    requires setup.Valid()
  {
    && Tour(setup, st.out, aims)
    && (st.out == [] ==> st == Init(setup))
    && (st.out != [] ==>
      var k := Follows(setup, st.out[|st.out| - 1], aims[|aims| - 1]);
      && st.last == st.out[|st.out| - 1] && st.upcoming == k + 1
      && (k < |setup.elements| ==> st.next == setup.elements[k]))
  }

  lemma TargetHeads(setup: Setup, st: State)
    requires setup.Valid()
    ensures StepsTowards(setup, st.last, Target(setup, st), st.next)
  {
    hide SpeedScale, Target, Setup.Speed, Gap;
    var s, target := SpeedScale(setup, st.last, st.next), Target(setup, st);
    SpeedScaleFits(setup, st.last, st.next, 0);
    forall i | 0 <= i < |setup.mapping|
      ensures Gap(setup, st.last, target, i) == s * Gap(setup, st.last, st.next, i)
      ensures setup.Speed(st.last, target, i) <= setup.maxVelocities[i]
    {
      TargetGap(setup, st, i);
      TargetIsSlow(setup, st, i);
    }
    if s < 1.0 {
      var i := SpeedScaleIsForced(setup, st.last, st.next);
      TargetGap(setup, st, i);
      SpeedIsGap(setup, st.last, st.next, st.last, target, s, i);
      assert Capped(setup, st.last, target, st.next, i);
    }
    TargetCarries(setup, st);
    assert Heads(setup, st.last, target, st.next, s);
  }

  lemma TargetCarries(setup: Setup, st: State)
    requires setup.Valid()
    ensures Carries(setup, Target(setup, st), st.next)
  {
    hide SpeedScale;
    var s := SpeedScale(setup, st.last, st.next);
    forall j | 0 <= j < JOINT_MAX && j !in setup.mapping
      ensures Target(setup, st).references[j] == st.next.references[j]
    {
      PatchElsewhere(st.next.references, setup.mapping, setup.ScaledMove(st.last, st.next, s), |setup.mapping|, j);
    }
  }

  /** The loop turns exactly when what it pushed is near. */
  lemma TurnsWhenNear(setup: Setup, st: State)
    requires setup.Valid()
    ensures Stays(setup, st) <==> !Near(setup, Target(setup, st), st.next)
  {
    hide SpeedScale, Setup.Speed;
    SpeedScaleFits(setup, st.last, st.next, 0);
    if SpeedScale(setup, st.last, st.next) == 1.0 {
      StandingStill(setup, st.next);
    }
  }

  lemma PassTours(setup: Setup, st: State, aims: seq<nat>) returns (aims': seq<nat>)
    requires setup.Valid() && st.upcoming <= |setup.elements| && Touring(setup, st, aims)
    requires Bent(setup, st.last, Target(setup, st), Aim(setup, st)) == Aim(setup, st)
    ensures Touring(setup, Pass(setup, st), aims')
  {
    hide Stays, Target, Bent, Near, StepsTowards;
    var target := Target(setup, st);
    TargetHeads(setup, st);
    TurnsWhenNear(setup, st);
    if st.out == [] {
      FirstTarget(setup);
      aims' := [0];
    } else {
      aims' := aims + [st.upcoming - 1];
    }
  }

  lemma {:induction false} RunTours(setup: Setup, st: State, aims: seq<nat>, lo: seq<real>, hi: seq<real>)
    returns (all: seq<nat>)
    requires setup.Valid() && setup.Completes() && Anchored(setup, st) && Touring(setup, st, aims)
    requires |lo| == |hi| == |setup.mapping| && Roomy(setup, lo, hi) && AllInside(setup, setup.elements, lo, hi)
    requires Inside(setup, st.last, lo, hi) && Inside(setup, st.next, lo, hi)
    requires st.upcoming <= |setup.elements| || st.out != []
    ensures Tour(setup, Run(setup, st), all) && Run(setup, st) != []
    ensures Follows(setup, Run(setup, st)[|all| - 1], all[|all| - 1]) == |setup.elements|
    decreases if st.upcoming <= |setup.elements| then |setup.elements| + 1 - st.upcoming else 0, Rank(setup, st)
  {
    hide Inside, Roomy, Stays, Target, Bent, Aim, Rank, Near, StepsTowards;
    if st.upcoming <= |setup.elements| {
      PassProgresses(setup, st);
      TargetInside(setup, st, lo, hi);
      AimInside(setup, st, lo, hi);
      RoomyIsUnbent(setup, st, Aim(setup, st), lo, hi);
      var aims' := PassTours(setup, st, aims);
      all := RunTours(setup, Pass(setup, st), aims', lo, hi);
    } else {
      all := aims;
    }
  }

  /** With room to turn the output is a tour: every step goes straight towards the waypoint aimed at, as far as the
      speed limits allow, and the aim turns to the next waypoint as soon as this one is near, until the last one is. */
  lemma RoomySaturatedTours(setup: Setup, lo: seq<real>, hi: seq<real>) returns (aims: seq<nat>)
    requires setup.Valid() && setup.Completes() && |lo| == |hi| == |setup.mapping|
    requires Roomy(setup, lo, hi) && AllInside(setup, setup.elements, lo, hi)
    ensures var out := Saturated(setup);
      && out != [] && Tour(setup, out, aims)
      && aims[|aims| - 1] == |setup.elements| - 1
      && Near(setup, out[|out| - 1], setup.elements[|setup.elements| - 1])
  {
    hide Roomy, Run, StepsTowards, Setup.Completes;
    if 2 <= |setup.elements| {
      assert Inside(setup, setup.elements[0], lo, hi);
      hide Inside;
      aims := RunTours(setup, Init(setup), [], lo, hi);
    } else {
      aims := [0];
      StandingStill(setup, setup.elements[0]);
    }
  }

  /** With room to turn every waypoint is visited, in turn: indices that do not decrease, one for each waypoint, of
      elements that are at most one speed-limited step away from it. */
  lemma RoomyVisitsEveryWaypoint(setup: Setup, lo: seq<real>, hi: seq<real>) returns (visits: seq<nat>)
    requires setup.Valid() && setup.Completes() && |lo| == |hi| == |setup.mapping|
    requires Roomy(setup, lo, hi) && AllInside(setup, setup.elements, lo, hi)
    ensures |visits| == |setup.elements|
    ensures forall k :: 0 <= k < |visits| ==>
      visits[k] < |Saturated(setup)| && Near(setup, Saturated(setup)[visits[k]], setup.elements[k])
    ensures forall k :: 0 < k < |visits| ==> visits[k - 1] < visits[k]
  {
    hide Roomy, Near, Saturated, StepsTowards;
    var aims := RoomySaturatedTours(setup, lo, hi);
    visits := VisitsBefore(setup, Saturated(setup), aims, |aims| - 1);
    visits := visits + [|aims| - 1];
  }

  /** The visits of the waypoints before the one aimed at by element t. */
  lemma {:induction false} VisitsBefore(setup: Setup, out: seq<Element>, aims: seq<nat>, t: nat)
    returns (visits: seq<nat>)
    requires setup.Valid() && Tour(setup, out, aims) && t < |out|
    ensures |visits| == aims[t]
    ensures forall k :: 0 <= k < |visits| ==> visits[k] < t && Near(setup, out[visits[k]], setup.elements[k])
    ensures forall k :: 0 < k < |visits| ==> visits[k - 1] < visits[k]
  {
    hide Near, StepsTowards;
    if t == 0 {
      visits := [];
    } else {
      visits := VisitsBefore(setup, out, aims, t - 1);
      if aims[t] != aims[t - 1] {
        visits := visits + [t - 1];
      }
    }
  }
}
