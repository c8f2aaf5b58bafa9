/** The passes of the saturating loop, for any limits, and its forward-only variant (`saturate` in
    HuboPath/src/Trajectory.cpp). */
module SaturationLoop {
  import opened RealArith
  import opened PathTypes
  import opened Saturation
  import opened SaturationEnd
  import opened SaturationRange
  import opened SaturationVisits

  // ----- How the way on is bent -----

  predicate Gentle(setup: Setup, last: Element, at: Element, next: Element)
    requires setup.Valid()
  {
    forall i :: 0 <= i < |setup.mapping| ==> setup.Acceleration(last, at, next, i) <= setup.maxAccelerations[i]
  }

  /** Every joint gets the same fraction a of the change of speed it asks for: the largest one that keeps all of them
      within their acceleration limits. What is not mapped is the aim's. */
  predicate Eases(setup: Setup, last: Element, at: Element, aim: Element, bent: Element, a: real)
    requires setup.Valid()
  {
    && 0.0 <= a < 1.0 && Carries(setup, bent, aim)
    && (forall i :: 0 <= i < |setup.mapping| ==> Bend(setup, last, at, bent, i) == a * Bend(setup, last, at, aim, i))
    && Gentle(setup, last, at, bent)
    && exists i :: 0 <= i < |setup.mapping| && Forced(setup, last, at, aim, bent, i)
  }

  /** Joint i asks for more acceleration than its limit, and gets just that. */
  predicate Forced(setup: Setup, last: Element, at: Element, aim: Element, bent: Element, i: nat)
    requires setup.Valid() && i < |setup.mapping|
  {
    setup.Acceleration(last, at, bent, i) == setup.maxAccelerations[i] < setup.Acceleration(last, at, aim, i)
  }

  /** Some joint would leave the way from where it is to its aim. */
  predicate Overshoots(setup: Setup, at: Element, aim: Element, bent: Element)
    requires setup.Valid()
  {
    exists i :: 0 <= i < |setup.mapping| && !Between(setup.Ref(at, i), setup.Ref(bent, i), setup.Ref(aim, i))
  }

  predicate Between(x: real, y: real, z: real) {
    x <= y <= z || z <= y <= x
  }

  /** The aim as it is when no joint asks for too much, or, going forward only, when bending would overshoot; otherwise
      the aim bent. */
  ghost predicate Turns(setup: Setup, last: Element, at: Element, aim: Element, next: Element)
    requires setup.Valid()
  {
    if Gentle(setup, last, at, aim) then next == aim
    else exists bent, a ::
      && Eases(setup, last, at, aim, bent, a)
      && next == if setup.forwardOnly && Overshoots(setup, at, aim, bent) then aim else bent
  }

  lemma BentTurns(setup: Setup, last: Element, at: Element, aim: Element)
    requires setup.Valid()
    ensures Turns(setup, last, at, aim, Bent(setup, last, at, aim))
  {
    hide AccelScale, Bent, Eases, Overshoots, Setup.Acceleration;
    if Gentle(setup, last, at, aim) {
      WithinAccelIsUnbent(setup, last, at, aim);
    } else {
      var a := AccelScale(setup, last, at, aim);
      var i: nat :| i < |setup.mapping| && setup.maxAccelerations[i] < setup.Acceleration(last, at, aim, i);
      AccelScaleFits(setup, last, at, aim, i);
      assert a < 1.0;
      var bent := setup.WithValues(aim, setup.ScaledBend(last, at, aim, a));
      ScaledBendEases(setup, last, at, aim);
      ScaledBendOvershoots(setup, last, at, aim, a);
      BentIs(setup, last, at, aim);
      assert Eases(setup, last, at, aim, bent, a);
    }
  }

  lemma BentIs(setup: Setup, last: Element, at: Element, aim: Element)
    requires setup.Valid() && AccelScale(setup, last, at, aim) < 1.0
    ensures var values := setup.ScaledBend(last, at, aim, AccelScale(setup, last, at, aim));
      Bent(setup, last, at, aim)
        == if setup.forwardOnly && setup.Overshoots(at, aim, values) then aim else setup.WithValues(aim, values)
  {
    hide AccelScale, Setup.WithValues, Setup.ScaledBend, Setup.Overshoots;
  }

  lemma ScaledBendEases(setup: Setup, last: Element, at: Element, aim: Element)
    requires setup.Valid() && AccelScale(setup, last, at, aim) < 1.0
    ensures var a := AccelScale(setup, last, at, aim);
      Eases(setup, last, at, aim, setup.WithValues(aim, setup.ScaledBend(last, at, aim, a)), a)
  {
    hide AccelScale, Bend, Setup.Acceleration, Setup.ScaledBend, Setup.WithValues;
    var a := AccelScale(setup, last, at, aim);
    var bent := setup.WithValues(aim, setup.ScaledBend(last, at, aim, a));
    AccelScaleFits(setup, last, at, aim, 0);
    forall i | 0 <= i < |setup.mapping|
      ensures Bend(setup, last, at, bent, i) == a * Bend(setup, last, at, aim, i)
      ensures setup.Acceleration(last, at, bent, i) == a * setup.Acceleration(last, at, aim, i)
      ensures setup.Acceleration(last, at, bent, i) <= setup.maxAccelerations[i]
    {
      ScaledBendAt(setup, last, at, aim, a, i);
      AccelerationIsBend(setup, last, at, aim, bent, a, i);
      AccelScaleFits(setup, last, at, aim, i);
    }
    var i := AccelScaleIsForced(setup, last, at, aim);
    assert Forced(setup, last, at, aim, bent, i);
    ScaledBendCarries(setup, last, at, aim, a);
  }

  lemma ScaledBendAt(setup: Setup, last: Element, at: Element, aim: Element, a: real, i: nat)
    requires setup.Valid() && i < |setup.mapping|
    ensures var values := setup.ScaledBend(last, at, aim, a); var bent := setup.WithValues(aim, values);
      setup.Ref(bent, i) == values[i] && Bend(setup, last, at, bent, i) == a * Bend(setup, last, at, aim, i)
  {
    hide BendTo, Patch;
    BendToGap(a, setup.Ref(aim, i), setup.Ref(at, i), setup.Ref(last, i));
    PatchAt(aim.references, setup.mapping, setup.ScaledBend(last, at, aim, a), |setup.mapping|, i);
  }

  lemma ScaledBendCarries(setup: Setup, last: Element, at: Element, aim: Element, a: real)
    requires setup.Valid()
    ensures Carries(setup, setup.WithValues(aim, setup.ScaledBend(last, at, aim, a)), aim)
  {
    var values := setup.ScaledBend(last, at, aim, a);
    forall j | 0 <= j < JOINT_MAX && j !in setup.mapping
      ensures setup.WithValues(aim, values).references[j] == aim.references[j]
    {
      PatchElsewhere(aim.references, setup.mapping, values, |setup.mapping|, j);
    }
  }

  lemma ScaledBendOvershoots(setup: Setup, last: Element, at: Element, aim: Element, a: real)
    requires setup.Valid()
    ensures var values := setup.ScaledBend(last, at, aim, a);
      setup.Overshoots(at, aim, values) <==> Overshoots(setup, at, aim, setup.WithValues(aim, values))
  {
    hide Setup.ScaledBend, Setup.WithValues, Bend;
    var values := setup.ScaledBend(last, at, aim, a);
    var bent := setup.WithValues(aim, values);
    forall i | 0 <= i < |setup.mapping|
      ensures InRange(setup.Ref(aim, i), setup.Ref(at, i), values[i])
        <==> Between(setup.Ref(at, i), setup.Ref(bent, i), setup.Ref(aim, i))
    {
      ScaledBendAt(setup, last, at, aim, a, i);
    }
  }

  // ----- The loop, round by round -----

  /** What one round pushes, what it was heading for, and the number of the next waypoint. */
  datatype Round = Round(pushed: Element, goal: Element, upcoming: nat)

  function Waypoint(setup: Setup, k: nat): Element
    requires setup.Valid()
  {
    if k < |setup.elements| then setup.elements[k] else setup.elements[|setup.elements| - 1]
  }

  /** Having pushed an element near its goal, the loop aims at the next waypoint, or the last one again; otherwise it
      keeps its goal. */
  function AimAfter(setup: Setup, round: Round): Element
    requires setup.Valid()
  {
    if Near(setup, round.pushed, round.goal) then Waypoint(setup, round.upcoming) else round.goal
  }

  function UpcomingAfter(setup: Setup, round: Round): nat
    requires setup.Valid()
  {
    if Near(setup, round.pushed, round.goal) then round.upcoming + 1 else round.upcoming
  }

  /** One round after another, `last` being what was pushed before both. */
  ghost predicate Follows(setup: Setup, last: Element, before: Round, after: Round)
    requires setup.Valid()
  {
    && after.upcoming == UpcomingAfter(setup, before)
    && Turns(setup, last, before.pushed, AimAfter(setup, before), after.goal)
    && StepsTowards(setup, before.pushed, after.pushed, after.goal)
  }

  /** What was pushed before round t; the first element is taken to have been pushed before as well. */
  function PushedBefore(rounds: seq<Round>, t: nat): Element
    requires t < |rounds|
  {
    if t == 0 then rounds[0].pushed else rounds[t - 1].pushed
  }

  ghost predicate InRounds(setup: Setup, rounds: seq<Round>, out: seq<Element>)
    requires setup.Valid()
  {
    && |rounds| == |out|
    && (forall t :: 0 <= t < |rounds| ==> rounds[t].pushed == out[t])
    && (rounds != [] ==> rounds[0] == Round(setup.elements[0], setup.elements[0], 1))
    && (forall t :: 0 < t < |rounds| ==> Follows(setup, PushedBefore(rounds, t - 1), rounds[t - 1], rounds[t]))
  }

  /** The rounds end where the waypoints are used up. */
  predicate Ends(setup: Setup, rounds: seq<Round>)
    requires setup.Valid()
  {
    && rounds != []
    && var end := rounds[|rounds| - 1]; Near(setup, end.pushed, end.goal) && end.upcoming == |setup.elements|
  }

  ghost predicate Tracks(setup: Setup, st: State, rounds: seq<Round>)
    requires setup.Valid()
  {
    && InRounds(setup, rounds, st.out)
    && (rounds == [] ==> st == Init(setup))
    && (rounds != [] ==>
      var t := |rounds| - 1;
      && st.last == rounds[t].pushed && st.upcoming == UpcomingAfter(setup, rounds[t])
      && Turns(setup, PushedBefore(rounds, t), st.last, AimAfter(setup, rounds[t]), st.next))
  }

  lemma RoundsGrow(setup: Setup, rounds: seq<Round>, out: seq<Element>, round: Round)
    requires setup.Valid() && InRounds(setup, rounds, out)
    requires rounds == [] ==> round == Round(setup.elements[0], setup.elements[0], 1)
    requires rounds != [] ==>
      Follows(setup, PushedBefore(rounds, |rounds| - 1), rounds[|rounds| - 1], round)
    ensures InRounds(setup, rounds + [round], out + [round.pushed])
  {
    hide Follows;
    var all := rounds + [round];
    forall t | 0 < t < |all|
      ensures Follows(setup, PushedBefore(all, t - 1), all[t - 1], all[t])
    {
      assert PushedBefore(all, t - 1) == PushedBefore(rounds, t - 1);
    }
  }

  /** The round that a pass makes follows those before it. */
  lemma PassFollows(setup: Setup, st: State, rounds: seq<Round>)
    requires setup.Valid() && Tracks(setup, st, rounds) && rounds != []
    ensures Follows(setup, PushedBefore(rounds, |rounds| - 1), rounds[|rounds| - 1],
                    Round(Target(setup, st), st.next, st.upcoming))
  {
    hide InRounds, Target, Near, StepsTowards, Turns, AimAfter, UpcomingAfter;
    TargetHeads(setup, st);
  }

  lemma PassAims(setup: Setup, st: State)
    requires setup.Valid() && st.upcoming <= |setup.elements|
    ensures var round, after := Round(Target(setup, st), st.next, st.upcoming), Pass(setup, st);
      && after.last == round.pushed && after.upcoming == UpcomingAfter(setup, round)
      && Turns(setup, st.last, round.pushed, AimAfter(setup, round), after.next)
  {
    hide Stays, Target, Bent, Near, Turns;
    TurnsWhenNear(setup, st);
    BentTurns(setup, st.last, Target(setup, st), Aim(setup, st));
  }

  lemma PassTracks(setup: Setup, st: State, rounds: seq<Round>)
    requires setup.Valid() && st.upcoming <= |setup.elements| && Tracks(setup, st, rounds)
    ensures Tracks(setup, Pass(setup, st), rounds + [Round(Target(setup, st), st.next, st.upcoming)])
  {
    var round := Round(Target(setup, st), st.next, st.upcoming);
    if rounds == [] {
      FirstTarget(setup);
    } else {
      PassFollows(setup, st, rounds);
    }
    RoundsGrow(setup, rounds, st.out, round);
    PassAims(setup, st);
    hide InRounds, Follows, Target, Bent, Aim, Stays, Turns, AimAfter, UpcomingAfter;
    assert Pass(setup, st).out == st.out + [round.pushed];
    assert PushedBefore(rounds + [round], |rounds|) == st.last;
  }

  lemma {:induction false} RunTracks(setup: Setup, st: State, rounds: seq<Round>) returns (all: seq<Round>)
    requires setup.Valid() && setup.Completes() && Anchored(setup, st) && Tracks(setup, st, rounds)
    requires if rounds == [] then st.upcoming <= |setup.elements|
      else rounds[|rounds| - 1].upcoming <= |setup.elements|
    ensures InRounds(setup, all, Run(setup, st)) && Ends(setup, all)
    decreases if st.upcoming <= |setup.elements| then |setup.elements| + 1 - st.upcoming else 0, Rank(setup, st)
  {
    hide Stays, Target, Bent, Aim, Rank, Near, StepsTowards, Turns;
    if st.upcoming <= |setup.elements| {
      PassProgresses(setup, st);
      PassTracks(setup, st, rounds);
      all := RunTracks(setup, Pass(setup, st), rounds + [Round(Target(setup, st), st.next, st.upcoming)]);
    } else {
      all := rounds;
    }
  }

  /** The whole loop, for any limits under which it ends: each round goes straight towards its goal as far as the speed
      limits allow, aims at the next waypoint exactly when it is near its goal, and bends the way on exactly as far as
      the acceleration limits demand; it ends when it is near its goal and the waypoints are used up. */
  lemma SaturatedInRounds(setup: Setup) returns (rounds: seq<Round>)
    requires setup.Valid() && setup.Completes() && 2 <= |setup.elements|
    ensures InRounds(setup, rounds, Saturated(setup)) && Ends(setup, rounds)
  {
    hide Run, Near, Turns, StepsTowards;
    rounds := RunTracks(setup, Init(setup), []);
  }

  // ----- The rounds are forced -----

  lemma SameElement(setup: Setup, aim: Element, e: Element, e': Element)
    requires setup.Valid() && Carries(setup, e, aim) && Carries(setup, e', aim)
    requires forall i :: 0 <= i < |setup.mapping| ==> setup.Ref(e, i) == setup.Ref(e', i)
    ensures e == e'
  {
    forall j | 0 <= j < JOINT_MAX
      ensures e.references[j] == e'.references[j]
    {
      if j in setup.mapping {
        var i :| 0 <= i < |setup.mapping| && setup.mapping[i] == j;
        assert setup.Ref(e, i) == setup.Ref(e', i);
      }
    }
    assert e.references == e'.references;
  }

  /** A fraction that reaches a limit is at least any fraction that keeps it. */
  lemma LargestFraction(a: real, a': real, wanted: real, limit: real)
    requires a * wanted == limit < wanted && a' * wanted <= limit && 0.0 <= limit
    ensures a' <= a
  {
    if a < a' { MulStrict(a, a', wanted); }
  }

  lemma EasesAtMost(setup: Setup, last: Element, at: Element, aim: Element, bent: Element, a: real, bent': Element,
                    a': real)
    requires setup.Valid() && Eases(setup, last, at, aim, bent, a) && Eases(setup, last, at, aim, bent', a')
    ensures a' <= a
  {
    hide Setup.Acceleration, Bend, Carries;
    var i: nat :| i < |setup.mapping| && Forced(setup, last, at, aim, bent, i);
    AccelerationIsBend(setup, last, at, aim, bent, a, i);
    AccelerationIsBend(setup, last, at, aim, bent', a', i);
    LargestFraction(a, a', setup.Acceleration(last, at, aim, i), setup.maxAccelerations[i]);
  }

  lemma TurnsIsForced(setup: Setup, last: Element, at: Element, aim: Element, next: Element, next': Element)
    requires setup.Valid() && Turns(setup, last, at, aim, next) && Turns(setup, last, at, aim, next')
    ensures next == next'
  {
    hide Gentle, Eases, Overshoots;
    if !Gentle(setup, last, at, aim) {
      var bent, a :| Eases(setup, last, at, aim, bent, a)
        && next == if setup.forwardOnly && Overshoots(setup, at, aim, bent) then aim else bent;
      var bent', a' :| Eases(setup, last, at, aim, bent', a')
        && next' == if setup.forwardOnly && Overshoots(setup, at, aim, bent') then aim else bent';
      EasesIsForced(setup, last, at, aim, bent, a, bent', a');
    }
  }

  lemma EasesIsForced(setup: Setup, last: Element, at: Element, aim: Element, bent: Element, a: real, bent': Element,
                      a': real)
    requires setup.Valid() && Eases(setup, last, at, aim, bent, a) && Eases(setup, last, at, aim, bent', a')
    ensures bent == bent'
  {
    EasesAtMost(setup, last, at, aim, bent, a, bent', a');
    EasesAtMost(setup, last, at, aim, bent', a', bent, a);
    hide Gentle, Carries, Forced;
    forall i | 0 <= i < |setup.mapping|
      ensures setup.Ref(bent, i) == setup.Ref(bent', i)
    {
      assert Bend(setup, last, at, bent, i) == Bend(setup, last, at, bent', i);
    }
    SameElement(setup, aim, bent, bent');
  }

  lemma HeadsAtMost(setup: Setup, from: Element, to: Element, goal: Element, s: real, to': Element, s': real)
    requires setup.Valid() && Heads(setup, from, to, goal, s) && Heads(setup, from, to', goal, s')
    ensures s' <= s
  {
    hide Setup.Speed, Gap;
    if s != 1.0 {
      var i: nat :| i < |setup.mapping| && Capped(setup, from, to, goal, i);
      SpeedIsGap(setup, from, goal, from, to, s, i);
      SpeedIsGap(setup, from, goal, from, to', s', i);
      LargestFraction(s, s', setup.Speed(from, goal, i), setup.maxVelocities[i]);
    }
  }

  lemma StepIsForced(setup: Setup, from: Element, to: Element, to': Element, goal: Element)
    requires setup.Valid() && StepsTowards(setup, from, to, goal) && StepsTowards(setup, from, to', goal)
    ensures to == to'
  {
    hide Heads, Carries;
    var s :| Heads(setup, from, to, goal, s);
    var s' :| Heads(setup, from, to', goal, s');
    HeadsAtMost(setup, from, to, goal, s, to', s');
    HeadsAtMost(setup, from, to', goal, s', to, s);
    SameGaps(setup, from, to, to', goal, s);
    SameElement(setup, goal, to, to');
  }

  lemma SameGaps(setup: Setup, from: Element, to: Element, to': Element, goal: Element, s: real)
    requires setup.Valid() && Heads(setup, from, to, goal, s) && Heads(setup, from, to', goal, s)
    ensures forall i :: 0 <= i < |setup.mapping| ==> setup.Ref(to, i) == setup.Ref(to', i)
  {
    hide Setup.Speed;
    forall i | 0 <= i < |setup.mapping|
      ensures setup.Ref(to, i) == setup.Ref(to', i)
    {
      assert Gap(setup, from, to, i) == Gap(setup, from, to', i);
    }
  }

  lemma {:induction false} SameRounds(setup: Setup, rounds: seq<Round>, rounds': seq<Round>, out: seq<Element>,
                                      out': seq<Element>, t: nat)
    requires setup.Valid() && InRounds(setup, rounds, out) && InRounds(setup, rounds', out')
    requires t < |rounds| && t < |rounds'|
    ensures forall k :: 0 <= k <= t ==> rounds[k] == rounds'[k]
  {
    hide Turns, StepsTowards, Near;
    if 0 < t {
      SameRounds(setup, rounds, rounds', out, out', t - 1);
      var last, before := PushedBefore(rounds, t - 1), rounds[t - 1];
      TurnsIsForced(setup, last, before.pushed, AimAfter(setup, before), rounds[t].goal, rounds'[t].goal);
      StepIsForced(setup, before.pushed, rounds[t].pushed, rounds'[t].pushed, rounds[t].goal);
    }
  }

  lemma {:induction false} UpcomingGrows(setup: Setup, rounds: seq<Round>, out: seq<Element>, t: nat, k: nat)
    requires setup.Valid() && InRounds(setup, rounds, out) && t < k < |rounds|
    ensures UpcomingAfter(setup, rounds[t]) <= rounds[k].upcoming
  {
    hide Turns, StepsTowards, Near;
    if t < k - 1 {
      UpcomingGrows(setup, rounds, out, t, k - 1);
    }
  }

  lemma EndsFirst(setup: Setup, rounds: seq<Round>, rounds': seq<Round>, out: seq<Element>, out': seq<Element>)
    requires setup.Valid() && InRounds(setup, rounds, out) && InRounds(setup, rounds', out')
    requires Ends(setup, rounds) && Ends(setup, rounds')
    ensures |rounds| <= |rounds'|
  {
    hide Near, InRounds;
    if |rounds'| < |rounds| {
      SameRounds(setup, rounds, rounds', out, out', |rounds'| - 1);
      UpcomingGrows(setup, rounds, out, |rounds'| - 1, |rounds| - 1);
    }
  }

  /** The rules for the rounds leave no freedom: an output that follows them to their end is the saturated one. */
  lemma RoundsDetermineOutput(setup: Setup, rounds: seq<Round>, out: seq<Element>)
    requires setup.Valid() && setup.Completes() && 2 <= |setup.elements|
    requires InRounds(setup, rounds, out) && Ends(setup, rounds)
    ensures out == Saturated(setup)
  {
    hide Near, Follows, Saturated;
    var rounds' := SaturatedInRounds(setup);
    EndsFirst(setup, rounds, rounds', out, Saturated(setup));
    EndsFirst(setup, rounds', rounds, Saturated(setup), out);
    SameRounds(setup, rounds, rounds', out, Saturated(setup), |rounds| - 1);
  }

  // ----- Going forward only -----

  lemma TurnsInside(setup: Setup, last: Element, at: Element, aim: Element, next: Element, lo: seq<real>, hi: seq<real>)
    requires setup.Valid() && setup.forwardOnly && |lo| == |hi| == |setup.mapping|
    requires Turns(setup, last, at, aim, next) && Inside(setup, at, lo, hi) && Inside(setup, aim, lo, hi)
    ensures Inside(setup, next, lo, hi)
  {
    hide Eases, Gentle, Setup.Acceleration;
  }

  lemma {:induction false} ForwardRunStaysInside(setup: Setup, st: State, lo: seq<real>, hi: seq<real>)
    requires setup.Valid() && setup.Completes() && setup.forwardOnly && Anchored(setup, st)
    requires |lo| == |hi| == |setup.mapping| && AllInside(setup, setup.elements, lo, hi)
    requires Inside(setup, st.last, lo, hi) && Inside(setup, st.next, lo, hi) && AllInside(setup, st.out, lo, hi)
    ensures AllInside(setup, Run(setup, st), lo, hi)
    decreases if st.upcoming <= |setup.elements| then |setup.elements| + 1 - st.upcoming else 0, Rank(setup, st)
  {
    hide Inside, Stays, Target, Bent, Aim, Rank, Turns;
    if st.upcoming <= |setup.elements| {
      PassProgresses(setup, st);
      TargetInside(setup, st, lo, hi);
      AimInside(setup, st, lo, hi);
      BentTurns(setup, st.last, Target(setup, st), Aim(setup, st));
      TurnsInside(setup, st.last, Target(setup, st), Aim(setup, st), Pass(setup, st).next, lo, hi);
      ForwardRunStaysInside(setup, Pass(setup, st), lo, hi);
    }
  }

  /** Going forward only, the output stays within any bounds of its waypoints, whatever the limits. */
  lemma ForwardStaysInside(setup: Setup, lo: seq<real>, hi: seq<real>)
    requires setup.Valid() && setup.Completes() && setup.forwardOnly && |lo| == |hi| == |setup.mapping|
    requires AllInside(setup, setup.elements, lo, hi)
    ensures AllInside(setup, Saturated(setup), lo, hi)
  {
    hide Inside;
    if 2 <= |setup.elements| {
      ForwardRunStaysInside(setup, Init(setup), lo, hi);
    }
  }
}
