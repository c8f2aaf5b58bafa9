/** A joint-space trajectory: interpolation and the independent limit check (HuboPath/src/Trajectory.cpp). */
module PathTrajectory {
  import opened RealArith
  import opened PathTypes
  import opened SplineMath
  import opened SplineInterpolation
  import opened Saturation
  import SaturationRange

  // ----- The limit check -----

  predicate PositionOkay(limits: JointLimits, x: real) {
    limits.minPosition - EPS <= x <= limits.maxPosition + EPS
  }

  predicate SpeedOkay(limits: JointLimits, f: real, before: real, x: real) {
    Abs(x - before) * f <= limits.maxSpeed + EPS
  }

  predicate AccelOkay(limits: JointLimits, f: real, before: real, x: real, after: real) {
    Abs(after - 2.0 * x + before) * f * f <= limits.maxAccel + EPS
  }

  /** Joint j keeps its limits at element i: position always, speed after the first element, acceleration in between. */
  predicate JointOkay(limits: JointLimits, f: real, elements: seq<Element>, enforceAccel: bool, i: nat, j: nat)
    requires i < |elements| && j < JOINT_MAX
  {
    && PositionOkay(limits, elements[i].references[j])
    && (0 < i ==> SpeedOkay(limits, f, elements[i - 1].references[j], elements[i].references[j]))
    && (enforceAccel && 0 < i < |elements| - 1 ==>
      AccelOkay(limits, f, elements[i - 1].references[j], elements[i].references[j], elements[i + 1].references[j]))
  }

  predicate ElementOkay(desc: Description, params: Params, elements: seq<Element>, enforceAccel: bool, i: nat, k: nat)
    requires Checkable(desc, params) && i < |elements| && k <= JointCount(desc, params)
  {
    forall j :: 0 <= j < k && params.bitmap[j] ==>
      JointOkay(LimitsOf(desc, params, j), EffectiveFrequency(desc, params), elements, enforceAccel, i, j)
  }

  /** Limits are known, and every claimed joint keeps them at every element. */
  predicate WithinLimits(desc: Description, params: Params, elements: seq<Element>, enforceAccel: bool)
    requires ChecksInBounds(desc, params, |elements|)
  {
    && KnowsLimits(desc, params)
    && forall i :: 0 <= i < |elements| ==>
      ElementOkay(desc, params, elements, enforceAccel, i, JointCount(desc, params))
  }

  /** Joint j at element i is within its position limits, moves no faster than its maximum speed after the first
      element, and, if that is enforced, accelerates by no more than its maximum in between; all but for a millionth. */
  predicate JointWithin(desc: Description, params: Params, elements: seq<Element>, enforceAccel: bool, i: nat, j: nat)
    requires i < |elements| && j < JOINT_MAX && (params.useCustomLimits || j < |desc.joints|)
  {
    var limits := if params.useCustomLimits then params.limits[j] else desc.joints[j].limits;
    var f, x := EffectiveFrequency(desc, params), elements[i].references[j];
    && limits.minPosition - 0.000001 <= x <= limits.maxPosition + 0.000001
    && (0 < i ==> Abs(x - elements[i - 1].references[j]) * f <= limits.maxSpeed + 0.000001)
    && (enforceAccel && 0 < i && i + 1 < |elements| ==>
      Abs(elements[i + 1].references[j] - 2.0 * x + elements[i - 1].references[j]) * f * f
        <= limits.maxAccel + 0.000001)
  }

  lemma JointWithinIsOkay(
      desc: Description, params: Params, elements: seq<Element>, enforceAccel: bool, i: nat, j: nat)
    requires i < |elements| && j < JOINT_MAX && (params.useCustomLimits || j < |desc.joints|)
    ensures JointWithin(desc, params, elements, enforceAccel, i, j)
      <==> JointOkay(LimitsOf(desc, params, j), EffectiveFrequency(desc, params), elements, enforceAccel, i, j)
  {
    hide Abs, EffectiveFrequency;
  }

  /** The check in full: limits are known, and every claimed joint of the robot, or of all 64 with custom limits, is
      within them at every element. */
  lemma CheckMeans(desc: Description, params: Params, elements: seq<Element>, enforceAccel: bool)
    requires ChecksInBounds(desc, params, |elements|)
    ensures WithinLimits(desc, params, elements, enforceAccel) <==>
      && (desc.okay || params.useCustomLimits)
      && forall i :: 0 <= i < |elements| ==> ElementWithin(desc, params, elements, enforceAccel, i)
  {
    hide JointWithin, JointOkay, EffectiveFrequency;
    if KnowsLimits(desc, params) {
      forall i | 0 <= i < |elements|
        ensures ElementOkay(desc, params, elements, enforceAccel, i, JointCount(desc, params))
          <==> ElementWithin(desc, params, elements, enforceAccel, i)
      {
        ElementMeans(desc, params, elements, enforceAccel, i);
      }
    }
  }

  predicate ElementWithin(desc: Description, params: Params, elements: seq<Element>, enforceAccel: bool, i: nat)
    requires i < |elements|
  {
    forall j :: 0 <= j < JOINT_MAX && params.bitmap[j] && (params.useCustomLimits || j < |desc.joints|) ==>
      JointWithin(desc, params, elements, enforceAccel, i, j)
  }

  lemma ElementMeans(desc: Description, params: Params, elements: seq<Element>, enforceAccel: bool, i: nat)
    requires Checkable(desc, params) && i < |elements|
    ensures ElementOkay(desc, params, elements, enforceAccel, i, JointCount(desc, params))
      <==> ElementWithin(desc, params, elements, enforceAccel, i)
  {
    hide JointWithin, JointOkay, EffectiveFrequency;
    forall j | 0 <= j < JOINT_MAX && (params.useCustomLimits || j < |desc.joints|)
      ensures JointWithin(desc, params, elements, enforceAccel, i, j)
        <==> JointOkay(LimitsOf(desc, params, j), EffectiveFrequency(desc, params), elements, enforceAccel, i, j)
    {
      JointWithinIsOkay(desc, params, elements, enforceAccel, i, j);
    }
  }

  // ----- Interpolation, on values -----

  datatype Outcome = Failed | Done(params: Params, elements: seq<Element>)

  function MappedLimits(desc: Description, params: Params): (limits: seq<JointLimits>)
    requires Mappable(desc, params)
    ensures |limits| == |ActiveIndices(params.bitmap)|
  {
    var mapping := ActiveIndices(params.bitmap);
    seq(|mapping|, i requires 0 <= i < |mapping| => LimitsOf(desc, params, mapping[i]))
  }

  function Project(limits: seq<JointLimits>, field: JointLimits -> real): (values: seq<real>)
    ensures |values| == |limits|
    ensures forall i :: 0 <= i < |limits| ==> values[i] == field(limits[i])
  {
    seq(|limits|, i requires 0 <= i < |limits| => field(limits[i]))
  }

  function Waypoints(elements: seq<Element>, mapping: seq<nat>): (path: seq<Config>)
    requires DistinctJoints(mapping)
    ensures |path| == |elements|
    ensures forall i :: 0 <= i < |path| ==> path[i] == Pick(elements[i].references, mapping)
  {
    seq(|elements|, i requires 0 <= i < |elements| => Pick(elements[i].references, mapping))
  }

  function FromConfig(mapping: seq<nat>, config: Config): Element
    requires DistinctJoints(mapping) && |config| == |mapping|
  {
    Element(Patch(ZeroElement().references, mapping, config, |mapping|), 0)
  }

  function FromConfigs(mapping: seq<nat>, configs: seq<Config>): (elements: seq<Element>)
    requires DistinctJoints(mapping) && forall i :: 0 <= i < |configs| ==> |configs[i]| == |mapping|
    ensures |elements| == |configs|
    ensures forall i :: 0 <= i < |configs| ==> elements[i] == FromConfig(mapping, configs[i])
  {
    seq(|configs|, i requires 0 <= i < |configs| => FromConfig(mapping, configs[i]))
  }

  /** A spline replaces every element, clears the unclaimed joints, and marks the trajectory as raw. */
  function Splined(desc: Description, params: Params, elements: seq<Element>): Outcome
    requires Mappable(desc, params) && 0.0 < EffectiveFrequency(desc, params)
  {
    var mapping, limits := ActiveIndices(params.bitmap), MappedLimits(desc, params);
    var path, f := Waypoints(elements, mapping), EffectiveFrequency(desc, params);
    var v := Project(limits, (l: JointLimits) => l.nominalSpeed);
    var a := Project(limits, (l: JointLimits) => l.nominalAccel);
    if path == [] then Done(params.(interp := Raw), [])
    else if Splinable(path, v, a, f) then
      Done(params.(interp := Raw), FromConfigs(mapping, PlanFor(path, v, a, f).Output(|path|)))
    else Failed
  }

  function SaturationSetup(desc: Description, params: Params, elements: seq<Element>): Setup
    requires Mappable(desc, params)
  {
    var limits := MappedLimits(desc, params);
    Setup(elements, Project(limits, (l: JointLimits) => l.maxSpeed), Project(limits, (l: JointLimits) => l.maxAccel),
          EffectiveFrequency(desc, params), ActiveIndices(params.bitmap), false)
  }

  /** What the program takes for granted when it interpolates: lookups within its tables, a positive frequency for a
      spline, and for saturating what its loop needs to end. */
  predicate Interpolable(desc: Description, params: Params, elements: seq<Element>) {
    && MapsInBounds(desc, params, |elements|)
    && (2 <= |elements| && KnowsLimits(desc, params) ==>
      && (params.interp == Spline ==> 0.0 < EffectiveFrequency(desc, params))
      && (params.interp == Saturate ==>
        var setup := SaturationSetup(desc, params, elements); setup.Valid() && setup.Completes()))
  }

  /** `optimal` stands for the time-optimal planner's answer, which is not part of this model. */
  function Interpolated(desc: Description, params: Params, elements: seq<Element>, optimal: Outcome): Outcome
    requires Interpolable(desc, params, elements)
  {
    if |elements| < 2 || params.interp == Raw then Done(params, elements)
    else if !KnowsLimits(desc, params) then Failed
    else match params.interp
      case Optimal => optimal
      case Spline => Splined(desc, params, elements)
      case Saturate => Done(params, Saturated(SaturationSetup(desc, params, elements)))
      case _ => Failed
  }

  /** Short and raw trajectories are left as they are; without limits, and for densifying, interpolation fails; the
      time-optimal mode gives the planner's answer. */
  lemma ModesMean(desc: Description, params: Params, elements: seq<Element>, optimal: Outcome)
    requires Interpolable(desc, params, elements)
    ensures var result := Interpolated(desc, params, elements, optimal);
      && (|elements| < 2 || params.interp == Raw ==> result == Done(params, elements))
      && (2 <= |elements| && params.interp != Raw && !desc.okay && !params.useCustomLimits ==> result == Failed)
      && (2 <= |elements| && params.interp == Densify ==> result == Failed)
      && (2 <= |elements| && params.interp == Optimal && (desc.okay || params.useCustomLimits) ==> result == optimal)
      && (2 <= |elements| && params.interp == Spline && result.Done? ==> result == Splined(desc, params, elements))
      && (2 <= |elements| && params.interp == Saturate && result.Done? ==>
        result == Done(params, Saturated(SaturationSetup(desc, params, elements))))
      && (2 <= |elements| && (desc.okay || params.useCustomLimits) ==>
        && (params.interp == Spline ==> result.Done? == Splined(desc, params, elements).Done?)
        && (params.interp == Saturate ==> result.Done?))
  {
    hide Splined, Saturated;
  }

  /** Saturating goes by the maximum limits of the claimed joints, and may go backwards. */
  lemma SaturatesToMaximum(desc: Description, params: Params, elements: seq<Element>, j: nat) returns (n: nat)
    requires Mappable(desc, params) && j < JOINT_MAX && params.bitmap[j]
    ensures var setup := SaturationSetup(desc, params, elements);
      && setup.elements == elements && setup.frequency == EffectiveFrequency(desc, params) && !setup.forwardOnly
      && n < |setup.mapping| && setup.mapping[n] == j
      && setup.maxVelocities[n] == LimitsOf(desc, params, j).maxSpeed
      && setup.maxAccelerations[n] == LimitsOf(desc, params, j).maxAccel
  {
    var mapping := ActiveIndices(params.bitmap);
    n :| 0 <= n < |mapping| && mapping[n] == j;
  }

  // ----- What the checker says about interpolated trajectories -----

  /** Nominal limits are usable and no looser than the maximum limits. */
  predicate NominalWithinMax(limits: JointLimits) {
    0.0 < limits.nominalSpeed <= limits.maxSpeed && 0.0 < limits.nominalAccel <= limits.maxAccel
  }

  /** Every claimed joint that the check goes through has usable limits. */
  predicate SoundLimits(desc: Description, params: Params) {
    forall j :: 0 <= j < JOINT_MAX && j < JointCount(desc, params) && params.bitmap[j] ==>
      NominalWithinMax(LimitsOf(desc, params, j))
  }

  /** Every claimed joint that the check goes through is within its position limits at every element. */
  predicate PositionsOkay(desc: Description, params: Params, elements: seq<Element>) {
    forall i, j :: 0 <= i < |elements| && 0 <= j < JOINT_MAX && j < JointCount(desc, params) && params.bitmap[j] ==>
      PositionOkay(LimitsOf(desc, params, j), elements[i].references[j])
  }

  lemma WithinLimitsHasPositions(desc: Description, params: Params, elements: seq<Element>, enforceAccel: bool)
    requires ChecksInBounds(desc, params, |elements|) && WithinLimits(desc, params, elements, enforceAccel)
    ensures PositionsOkay(desc, params, elements)
  {
    forall i, j | 0 <= i < |elements| && 0 <= j < JOINT_MAX && j < JointCount(desc, params) && params.bitmap[j]
      ensures PositionOkay(LimitsOf(desc, params, j), elements[i].references[j])
    {
      assert ElementOkay(desc, params, elements, enforceAccel, i, JointCount(desc, params));
    }
  }

  /** The spline's plan for a trajectory. */
  function PlanOf(desc: Description, params: Params, elements: seq<Element>): (plan: Plan)
    requires Indexable(desc, params) && KnowsLimits(desc, params) && 0.0 < EffectiveFrequency(desc, params)
    requires SoundLimits(desc, params) && elements != []
    ensures plan.Valid() && plan.path == Waypoints(elements, ActiveIndices(params.bitmap))
    ensures Splined(desc, params, elements)
         == Done(params.(interp := Raw), FromConfigs(ActiveIndices(params.bitmap), plan.Output(|plan.path|)))
  {
    var limits := MappedLimits(desc, params);
    PlanFor(Waypoints(elements, ActiveIndices(params.bitmap)), Project(limits, (l: JointLimits) => l.nominalSpeed),
            Project(limits, (l: JointLimits) => l.nominalAccel), EffectiveFrequency(desc, params))
  }

  /** The plan leaves enough ticks for the n-th claimed joint's nominal limits. */
  lemma PlanOfIsAmple(desc: Description, params: Params, elements: seq<Element>, n: nat)
    requires Indexable(desc, params) && KnowsLimits(desc, params) && 0.0 < EffectiveFrequency(desc, params)
    requires SoundLimits(desc, params) && elements != [] && n < |ActiveIndices(params.bitmap)|
    ensures var limits := LimitsOf(desc, params, ActiveIndices(params.bitmap)[n]);
      AmpleFor(PlanOf(desc, params, elements), n, limits.nominalSpeed, limits.nominalAccel,
               EffectiveFrequency(desc, params))
  {
    var limits := MappedLimits(desc, params);
    PlanForIsAmple(Waypoints(elements, ActiveIndices(params.bitmap)),
                   Project(limits, (l: JointLimits) => l.nominalSpeed),
                   Project(limits, (l: JointLimits) => l.nominalAccel), EffectiveFrequency(desc, params), n);
  }

  /** Output element t holds sample t in the claimed joints. */
  lemma SplinedRef(desc: Description, params: Params, elements: seq<Element>, t: nat, n: nat)
    requires Indexable(desc, params) && KnowsLimits(desc, params) && 0.0 < EffectiveFrequency(desc, params)
    requires SoundLimits(desc, params) && elements != [] && n < |ActiveIndices(params.bitmap)|
    requires t < |PlanOf(desc, params, elements).Output(|elements|)|
    ensures Splined(desc, params, elements).elements[t].references[ActiveIndices(params.bitmap)[n]]
         == At(PlanOf(desc, params, elements), t, n)
  {
    var plan := PlanOf(desc, params, elements);
    PatchAt(ZeroElement().references, ActiveIndices(params.bitmap), plan.Output(|plan.path|)[t],
            |ActiveIndices(params.bitmap)|, n);
  }

  /** A joint that follows column n of an ample plan keeps its limits. */
  lemma PlanJointOkay(plan: Plan, n: nat, limits: JointLimits, f: real, out: seq<Element>, t: nat, j: nat)
    requires plan.Valid() && n < |plan.path[0]| && 0.0 < f && NominalWithinMax(limits)
    requires AmpleFor(plan, n, limits.nominalSpeed, limits.nominalAccel, f)
    requires forall i :: 0 <= i < |plan.path| ==> PositionOkay(limits, plan.path[i][n])
    requires |out| == plan.Base(|plan.steps|) + 1 && j < JOINT_MAX && t < |out|
    requires forall i :: 0 <= i < |out| ==> out[i].references[j] == At(plan, i, n)
    ensures JointOkay(limits, f, out, true, t, j)
  {
    hide At, AmpleFor, Abs;
    PlanKeepsPosition(plan, n, limits.minPosition - EPS, limits.maxPosition + EPS, t);
    if 0 < t {
      PlanKeepsSpeed(plan, n, limits.nominalSpeed, limits.nominalAccel, f, t);
    }
    if 0 < t < |out| - 1 {
      PlanKeepsAcceleration(plan, n, limits.nominalSpeed, limits.nominalAccel, f, t);
      Reassociate(Abs(SplineInterpolation.Bend(plan, t, n)), f, f);
    }
  }

  lemma SplinedJointOkay(desc: Description, params: Params, elements: seq<Element>, t: nat, n: nat)
    requires Indexable(desc, params) && KnowsLimits(desc, params) && 0.0 < EffectiveFrequency(desc, params)
    requires SoundLimits(desc, params) && elements != [] && n < |ActiveIndices(params.bitmap)|
    requires PositionsOkay(desc, params, elements)
    requires t < |Splined(desc, params, elements).elements|
    ensures var j := ActiveIndices(params.bitmap)[n];
      JointOkay(LimitsOf(desc, params, j), EffectiveFrequency(desc, params), Splined(desc, params, elements).elements,
                true, t, j)
  {
    hide At, Splined, PlanOf, AmpleFor, PositionOkay, JointOkay;
    var plan, out := PlanOf(desc, params, elements), Splined(desc, params, elements).elements;
    var j := ActiveIndices(params.bitmap)[n];
    PlanOfIsAmple(desc, params, elements, n);
    forall i | 0 <= i < |out|
      ensures out[i].references[j] == At(plan, i, n)
    {
      SplinedRef(desc, params, elements, i, n);
    }
    PlanJointOkay(plan, n, LimitsOf(desc, params, j), EffectiveFrequency(desc, params), out, t, j);
  }

  /** The far waypoint of a segment, or the only waypoint, is an output element. */
  lemma WaypointSurvives(desc: Description, params: Params, elements: seq<Element>, i: nat, n: nat)
    requires Indexable(desc, params) && KnowsLimits(desc, params) && 0.0 < EffectiveFrequency(desc, params)
    requires SoundLimits(desc, params) && i < |elements| && n < |ActiveIndices(params.bitmap)|
    ensures var out, j := Splined(desc, params, elements).elements, ActiveIndices(params.bitmap)[n];
      exists t :: 0 <= t < |out| && out[t].references[j] == elements[i].references[j]
  {
    hide Splined, PlanOf;
    var plan := PlanOf(desc, params, elements);
    WaypointAt(plan, |elements|, i);
    SplinedRef(desc, params, elements, plan.Base(i), n);
  }

  lemma SplinedWithinLimits(desc: Description, params: Params, elements: seq<Element>)
    requires Indexable(desc, params) && KnowsLimits(desc, params) && 0.0 < EffectiveFrequency(desc, params)
    requires KnowsLimits(desc, params) && SoundLimits(desc, params) && elements != []
    requires PositionsOkay(desc, params, elements)
    ensures WithinLimits(desc, params, Splined(desc, params, elements).elements, true)
  {
    hide Splined, JointOkay, PositionsOkay, PlanOf;
    var plan := PlanOf(desc, params, elements);
    var out := Splined(desc, params, elements).elements;
    forall i, j | 0 <= i < |out| && 0 <= j < JointCount(desc, params) && params.bitmap[j]
      ensures JointOkay(LimitsOf(desc, params, j), EffectiveFrequency(desc, params), out, true, i, j)
    {
      var n :| 0 <= n < |ActiveIndices(params.bitmap)| && ActiveIndices(params.bitmap)[n] == j;
      SplinedJointOkay(desc, params, elements, i, n);
    }
  }

  lemma SplinedHadPositions(desc: Description, params: Params, elements: seq<Element>)
    requires Indexable(desc, params) && KnowsLimits(desc, params) && 0.0 < EffectiveFrequency(desc, params)
    requires SoundLimits(desc, params) && elements != []
    requires WithinLimits(desc, params, Splined(desc, params, elements).elements, true)
    ensures PositionsOkay(desc, params, elements)
  {
    hide Splined, PositionOkay, WithinLimits, PlanOf;
    var plan := PlanOf(desc, params, elements);
    WithinLimitsHasPositions(desc, params, Splined(desc, params, elements).elements, true);
    forall i, j | 0 <= i < |elements| && 0 <= j < JOINT_MAX && j < JointCount(desc, params) && params.bitmap[j]
      ensures PositionOkay(LimitsOf(desc, params, j), elements[i].references[j])
    {
      var n :| 0 <= n < |ActiveIndices(params.bitmap)| && ActiveIndices(params.bitmap)[n] == j;
      WaypointSurvives(desc, params, elements, i, n);
    }
  }

  function Sum(numbers: seq<nat>): nat {
    if numbers == [] then 0 else Sum(numbers[..|numbers| - 1]) + numbers[|numbers| - 1]
  }

  lemma {:induction false} BaseIsSum(plan: Plan, k: nat)
    requires k <= |plan.steps|
    ensures plan.Base(k) == Sum(plan.steps[..k])
  {
    if 0 < k {
      BaseIsSum(plan, k - 1);
      assert plan.steps[..k][..k - 1] == plan.steps[..k - 1];
    }
  }

  /** Sample k of segment i has joint j eased from waypoint i to the next. */
  predicate EasesAlong(out: seq<Element>, steps: seq<nat>, elements: seq<Element>, i: nat, k: nat, j: nat)
    requires |steps| == |elements| - 1 && i < |steps| && j < JOINT_MAX
  {
    var t, from, to := Sum(steps[..i]) + k, elements[i].references[j], elements[i + 1].references[j];
    t < |out| && 0 < steps[i] && out[t].references[j] == from + Ease(k, steps[i]) * (to - from)
  }

  lemma SplinedEases(desc: Description, params: Params, elements: seq<Element>, i: nat, k: nat, j: nat)
    requires Indexable(desc, params) && KnowsLimits(desc, params) && 0.0 < EffectiveFrequency(desc, params)
    requires SoundLimits(desc, params) && i + 1 < |elements| && j < JOINT_MAX && params.bitmap[j]
    requires k <= PlanOf(desc, params, elements).steps[i]
    ensures var steps := PlanOf(desc, params, elements).steps;
      EasesAlong(Splined(desc, params, elements).elements, steps, elements, i, k, j)
  {
    hide Ease, Splined, SoundLimits, PlanOf, Mappable, KnowsLimits, EffectiveFrequency, At, Plan.Output, FromConfigs;
    var plan, mapping := PlanOf(desc, params, elements), ActiveIndices(params.bitmap);
    var n :| 0 <= n < |mapping| && mapping[n] == j;
    BaseIsSum(plan, i);
    SampleAt(plan, i, k, n);
    SplinedRef(desc, params, elements, plan.Base(i) + k, n);
  }

  lemma SampleAt(plan: Plan, i: nat, k: nat, n: nat)
    requires plan.Valid() && i < |plan.steps| && k <= plan.steps[i] && n < |plan.path[0]|
    ensures plan.Base(i) + k < |plan.Output(|plan.path|)|
    ensures At(plan, plan.Base(i) + k, n)
         == plan.path[i][n] + Ease(k, plan.steps[i]) * (plan.path[i + 1][n] - plan.path[i][n])
  {
    hide Ease;
    OutputAt(plan, |plan.path|, i, k);
  }

  /** A spline is as long as the nominal limits of the claimed joints require and no longer: each segment has the least
      number of steps, and at least one, that is enough for all of them; and it eases every claimed joint from waypoint
      to waypoint. */
  lemma SplinedIsLeast(desc: Description, params: Params, elements: seq<Element>) returns (steps: seq<nat>)
    requires Indexable(desc, params) && KnowsLimits(desc, params) && 0.0 < EffectiveFrequency(desc, params)
    requires SoundLimits(desc, params) && elements != []
    ensures |steps| == |elements| - 1 && |Splined(desc, params, elements).elements| == Sum(steps) + 1
    ensures forall i, n: nat :: 0 <= i < |steps| && 1 <= n ==>
      (steps[i] <= n <==> EnoughForAll(desc, params, elements, i, n))
    ensures forall i, k, j :: 0 <= i < |steps| && 0 <= k <= steps[i] && 0 <= j < JOINT_MAX && params.bitmap[j] ==>
      EasesAlong(Splined(desc, params, elements).elements, steps, elements, i, k, j)
  {
    hide Ease, EasesAlong, Splined, EnoughForAll, EnoughTicks, PlanOf, SoundLimits;
    var plan := PlanOf(desc, params, elements);
    steps := plan.steps;
    BaseIsSum(plan, |plan.steps|);
    assert plan.steps[..|plan.steps|] == plan.steps;
    forall i, n: nat | 0 <= i < |steps| && 1 <= n
      ensures steps[i] <= n <==> EnoughForAll(desc, params, elements, i, n)
    {
      StepsAreLeast(desc, params, elements, i, n);
    }
    forall i, k, j | 0 <= i < |steps| && 0 <= k <= steps[i] && 0 <= j < JOINT_MAX && params.bitmap[j]
      ensures EasesAlong(Splined(desc, params, elements).elements, steps, elements, i, k, j)
    {
      SplinedEases(desc, params, elements, i, k, j);
    }
  }

  /** n steps from waypoint i to the next are enough for joint j's nominal limits. */
  predicate EnoughSteps(desc: Description, params: Params, elements: seq<Element>, i: nat, j: nat, n: nat)
    requires Mappable(desc, params) && i + 1 < |elements| && j < JOINT_MAX && params.bitmap[j]
  {
    var limits := LimitsOf(desc, params, j);
    EnoughTicks(n, elements[i + 1].references[j] - elements[i].references[j], limits.nominalSpeed, limits.nominalAccel,
                EffectiveFrequency(desc, params))
  }

  predicate EnoughForAll(desc: Description, params: Params, elements: seq<Element>, i: nat, n: nat)
    requires Mappable(desc, params) && i + 1 < |elements|
  {
    forall j :: 0 <= j < JOINT_MAX && params.bitmap[j] ==> EnoughSteps(desc, params, elements, i, j, n)
  }

  lemma StepsAreLeast(desc: Description, params: Params, elements: seq<Element>, i: nat, n: nat)
    requires Indexable(desc, params) && KnowsLimits(desc, params) && 0.0 < EffectiveFrequency(desc, params)
    requires SoundLimits(desc, params) && i + 1 < |elements| && 1 <= n
    ensures PlanOf(desc, params, elements).steps[i] <= n <==> EnoughForAll(desc, params, elements, i, n)
  {
    hide EnoughTicks, EnoughSteps, PlanFor, Abs;
    var mapping, limits := ActiveIndices(params.bitmap), MappedLimits(desc, params);
    var path, f := Waypoints(elements, mapping), EffectiveFrequency(desc, params);
    var v := Project(limits, (l: JointLimits) => l.nominalSpeed);
    var a := Project(limits, (l: JointLimits) => l.nominalAccel);
    PlanIsLeast(path, v, a, f, i, n);
    forall m | 0 <= m < |mapping|
      ensures EnoughTicks(n, path[i + 1][m] - path[i][m], Abs(v[m]), Abs(a[m]), f)
        <==> EnoughSteps(desc, params, elements, i, mapping[m], n)
    {
      PositiveLimits(desc, params, mapping[m]);
      SameSteps(desc, params, elements, i, mapping[m], n);
    }
  }

  lemma PositiveLimits(desc: Description, params: Params, j: nat)
    requires Indexable(desc, params) && SoundLimits(desc, params) && j < JOINT_MAX && params.bitmap[j]
    ensures Abs(LimitsOf(desc, params, j).nominalSpeed) == LimitsOf(desc, params, j).nominalSpeed
    ensures Abs(LimitsOf(desc, params, j).nominalAccel) == LimitsOf(desc, params, j).nominalAccel
  {}

  lemma SameSteps(desc: Description, params: Params, elements: seq<Element>, i: nat, j: nat, n: nat)
    requires Mappable(desc, params) && i + 1 < |elements| && j < JOINT_MAX && params.bitmap[j]
    ensures var limits := LimitsOf(desc, params, j);
      EnoughSteps(desc, params, elements, i, j, n)
      <==> EnoughTicks(n, elements[i + 1].references[j] - elements[i].references[j], limits.nominalSpeed,
                       limits.nominalAccel, EffectiveFrequency(desc, params))
  {}

  predicate HasZeroLimit(desc: Description, params: Params, j: nat)
    requires Mappable(desc, params)
  {
    j < JOINT_MAX && params.bitmap[j]
    && (LimitsOf(desc, params, j).nominalSpeed == 0.0 || LimitsOf(desc, params, j).nominalAccel == 0.0)
  }

  /** A spline between at least two waypoints fails exactly when a claimed joint has a nominal limit of zero. */
  lemma SplineFailsIff(desc: Description, params: Params, elements: seq<Element>)
    requires Mappable(desc, params) && 0.0 < EffectiveFrequency(desc, params)
    ensures 2 <= |elements| ==> (Splined(desc, params, elements).Failed? <==>
      exists j: nat :: HasZeroLimit(desc, params, j))
    ensures |elements| < 2 ==> Splined(desc, params, elements).Done?
    ensures elements == [] ==> Splined(desc, params, elements).elements == []
  {
    hide PlanFor, Plan.Output, FromConfigs, EffectiveFrequency, NonZeroLimits, HasZeroLimit, MappedLimits;
    hide ActiveIndices;
    ZeroLimitMeans(desc, params);
  }

  lemma ZeroLimitMeans(desc: Description, params: Params)
    requires Mappable(desc, params)
    ensures var limits := MappedLimits(desc, params);
      NonZeroLimits(Project(limits, (l: JointLimits) => l.nominalSpeed),
                    Project(limits, (l: JointLimits) => l.nominalAccel))
      <==> forall j: nat :: !HasZeroLimit(desc, params, j)
  {
    hide Mappable, LimitsOf;
    var mapping, limits := ActiveIndices(params.bitmap), MappedLimits(desc, params);
    var v := Project(limits, (l: JointLimits) => l.nominalSpeed);
    var a := Project(limits, (l: JointLimits) => l.nominalAccel);
    if j: nat :| HasZeroLimit(desc, params, j) {
      var n :| 0 <= n < |mapping| && mapping[n] == j;
      assert v[n] == 0.0 || a[n] == 0.0;
    } else if !NonZeroLimits(v, a) {
      var n :| 0 <= n < |mapping| && (v[n] == 0.0 || a[n] == 0.0);
      assert HasZeroLimit(desc, params, mapping[n]);
    }
  }

  /** The unclaimed joints of a spline are cleared, and it is marked as raw. */
  lemma SplinedElsewhere(desc: Description, params: Params, elements: seq<Element>, t: nat, j: nat)
    requires Mappable(desc, params) && 0.0 < EffectiveFrequency(desc, params)
    requires Splined(desc, params, elements).Done? && t < |Splined(desc, params, elements).elements|
    requires j < JOINT_MAX && !params.bitmap[j]
    ensures Splined(desc, params, elements).elements[t].references[j] == 0.0
    ensures Splined(desc, params, elements).elements[t].phaseIndex == 0
    ensures Splined(desc, params, elements).params == params.(interp := Raw)
  {
    hide Plan.Output, PlanFor, NonZeroLimits;
    var mapping, out := ActiveIndices(params.bitmap), Splined(desc, params, elements).elements;
    var config :| |config| == |mapping| && out[t] == FromConfig(mapping, config);
    ClearedElsewhere(mapping, config, j);
  }

  lemma ClearedElsewhere(mapping: seq<nat>, config: Config, j: nat)
    requires DistinctJoints(mapping) && |config| == |mapping| && j < JOINT_MAX && j !in mapping
    ensures FromConfig(mapping, config).references[j] == 0.0 && FromConfig(mapping, config).phaseIndex == 0
  {
    PatchElsewhere(ZeroElement().references, mapping, config, |mapping|, j);
    assert ZeroElement().references == Repeated(0.0, JOINT_MAX);
    assert Repeated(0.0, JOINT_MAX)[j] == 0.0;
  }

  /** Interpolating with a spline makes the position limits of the waypoints the only thing the checker can reject:
      speeds and accelerations pass, across waypoints too. */
  lemma SplinePassesChecker(desc: Description, params: Params, elements: seq<Element>, optimal: Outcome)
    requires Interpolable(desc, params, elements) && params.interp == Interp.Spline
    requires KnowsLimits(desc, params) && SoundLimits(desc, params) && ChecksInBounds(desc, params, |elements|)
    ensures var result := Interpolated(desc, params, elements, optimal);
      && result.Done?
      && ChecksInBounds(desc, result.params, |result.elements|)
      && (WithinLimits(desc, result.params, result.elements, true) <==> PositionsOkay(desc, params, elements))
  {
    hide Splined, WithinLimits, PositionsOkay;
    if |elements| < 2 {
      FewElementsChecked(desc, params, elements);
    } else {
      var plan := PlanOf(desc, params, elements);
      var out := Splined(desc, params, elements).elements;
      RawKeepsVerdict(desc, params, out);
      if PositionsOkay(desc, params, elements) {
        SplinedWithinLimits(desc, params, elements);
      }
      if WithinLimits(desc, params, out, true) {
        SplinedHadPositions(desc, params, elements);
      }
    }
  }

  lemma RawKeepsVerdict(desc: Description, params: Params, elements: seq<Element>)
    requires Indexable(desc, params) && KnowsLimits(desc, params)
    ensures var raw := params.(interp := Raw);
      Checkable(desc, raw) && (WithinLimits(desc, raw, elements, true) <==> WithinLimits(desc, params, elements, true))
  {
    hide JointOkay;
    var raw := params.(interp := Raw);
    forall i | 0 <= i < |elements|
      ensures ElementOkay(desc, raw, elements, true, i, JointCount(desc, raw))
         <==> ElementOkay(desc, params, elements, true, i, JointCount(desc, params))
    {}
  }

  lemma FewElementsChecked(desc: Description, params: Params, elements: seq<Element>)
    requires ChecksInBounds(desc, params, |elements|) && KnowsLimits(desc, params) && |elements| < 2
    ensures WithinLimits(desc, params, elements, true) <==> PositionsOkay(desc, params, elements)
  {
    if WithinLimits(desc, params, elements, true) {
      WithinLimitsHasPositions(desc, params, elements, true);
    }
  }

  /** After saturating, the checker can only reject a position, unless it is told to enforce accelerations. */
  lemma SaturatePassesChecker(desc: Description, params: Params, elements: seq<Element>, optimal: Outcome)
    requires Interpolable(desc, params, elements) && params.interp == Interp.Saturate
    requires KnowsLimits(desc, params) && 2 <= |elements| && Checkable(desc, params)
    ensures var result := Interpolated(desc, params, elements, optimal);
      && result.Done?
      && (WithinLimits(desc, params, result.elements, false) <==> PositionsOkay(desc, params, result.elements))
  {
    hide JointOkay, PositionOkay, Setup.Speed;
    var setup, out := SaturationSetup(desc, params, elements), Interpolated(desc, params, elements, optimal).elements;
    SaturatedKeepsSpeed(setup);
    if WithinLimits(desc, params, out, false) {
      WithinLimitsHasPositions(desc, params, out, false);
    }
    if PositionsOkay(desc, params, out) {
      forall i, j | 0 <= i < |out| && 0 <= j < JointCount(desc, params) && params.bitmap[j]
        ensures JointOkay(LimitsOf(desc, params, j), EffectiveFrequency(desc, params), out, false, i, j)
      {
        var n :| 0 <= n < |setup.mapping| && setup.mapping[n] == j;
        SaturatedJointOkay(setup, LimitsOf(desc, params, j), out, i, n);
      }
    }
  }

  /** Every claimed joint may accelerate enough to turn from any allowed move to any move within its position limits. */
  predicate RoomToTurn(desc: Description, params: Params)
    requires Mappable(desc, params)
  {
    var f := EffectiveFrequency(desc, params);
    forall j :: 0 <= j < JOINT_MAX && params.bitmap[j] ==>
      var limits := LimitsOf(desc, params, j);
      SaturationRange.Turn(limits.maxPosition + EPS - (limits.minPosition - EPS), limits.maxSpeed, f) <= limits.maxAccel
  }

  function Floors(desc: Description, params: Params): (lo: seq<real>)
    requires Mappable(desc, params)
    ensures |lo| == |ActiveIndices(params.bitmap)|
  {
    Project(MappedLimits(desc, params), (l: JointLimits) => l.minPosition - EPS)
  }

  function Ceilings(desc: Description, params: Params): (hi: seq<real>)
    requires Mappable(desc, params)
    ensures |hi| == |ActiveIndices(params.bitmap)|
  {
    Project(MappedLimits(desc, params), (l: JointLimits) => l.maxPosition + EPS)
  }

  /** The position limits as bounds of the mapped joints. */
  lemma InsideIsPositions(desc: Description, params: Params, setup: Setup, out: seq<Element>)
    requires Indexable(desc, params) && setup.Valid() && setup.mapping == ActiveIndices(params.bitmap)
    ensures SaturationRange.AllInside(setup, out, Floors(desc, params), Ceilings(desc, params))
      <==> PositionsOkay(desc, params, out)
  {
    var lo, hi := Floors(desc, params), Ceilings(desc, params);
    if SaturationRange.AllInside(setup, out, lo, hi) {
      forall i, j | 0 <= i < |out| && 0 <= j < JOINT_MAX && j < JointCount(desc, params) && params.bitmap[j]
        ensures PositionOkay(LimitsOf(desc, params, j), out[i].references[j])
      {
        var n :| 0 <= n < |setup.mapping| && setup.mapping[n] == j;
        assert SaturationRange.Inside(setup, out[i], lo, hi);
        assert lo[n] <= setup.Ref(out[i], n) <= hi[n];
      }
    }
    if PositionsOkay(desc, params, out) {
      forall k, n | 0 <= k < |out| && 0 <= n < |setup.mapping|
        ensures lo[n] <= setup.Ref(out[k], n) <= hi[n]
      {
        assert PositionOkay(LimitsOf(desc, params, setup.mapping[n]), out[k].references[setup.mapping[n]]);
      }
    }
  }

  lemma RoomIsRoomy(desc: Description, params: Params, elements: seq<Element>)
    requires Mappable(desc, params) && RoomToTurn(desc, params) && SaturationSetup(desc, params, elements).Valid()
    ensures SaturationRange.Roomy(SaturationSetup(desc, params, elements), Floors(desc, params), Ceilings(desc, params))
  {
    hide SaturationRange.Turn;
  }

  /** With room to turn a saturated trajectory passes the checker whenever its waypoints are within their position
      limits. */
  lemma RoomySaturatePasses(desc: Description, params: Params, elements: seq<Element>, optimal: Outcome)
    requires Interpolable(desc, params, elements) && params.interp == Interp.Saturate
    requires KnowsLimits(desc, params) && 2 <= |elements| && Checkable(desc, params)
    requires RoomToTurn(desc, params) && PositionsOkay(desc, params, elements)
    ensures var result := Interpolated(desc, params, elements, optimal);
      result.Done? && WithinLimits(desc, params, result.elements, false)
  {
    hide WithinLimits, PositionsOkay, RoomToTurn, Saturated, Setup.Completes, Floors, Ceilings;
    hide SaturationRange.AllInside, SaturationRange.Roomy;
    var setup := SaturationSetup(desc, params, elements);
    RoomIsRoomy(desc, params, elements);
    InsideIsPositions(desc, params, setup, elements);
    SaturationRange.RoomyStaysInside(setup, Floors(desc, params), Ceilings(desc, params));
    InsideIsPositions(desc, params, setup, Saturated(setup));
    SaturatePassesChecker(desc, params, elements, optimal);
  }

  lemma SaturatedJointOkay(setup: Setup, limits: JointLimits, out: seq<Element>, i: nat, n: nat)
    requires setup.Valid() && KeepsSpeed(setup, out) && i < |out| && n < |setup.mapping|
    requires limits.maxSpeed == setup.maxVelocities[n] && PositionOkay(limits, out[i].references[setup.mapping[n]])
    ensures JointOkay(limits, setup.frequency, out, false, i, setup.mapping[n])
  {
    if 0 < i {
      assert setup.Speed(out[i - 1], out[i], n) <= setup.maxVelocities[n];
    }
  }

  // ----- The class -----

  class Trajectory {
    var desc: Description
    var params: Params
    var elements: seq<Element>

    constructor (desc: Description)
      ensures this.desc == desc && params == ZeroParams() && elements == []
    {
      this.desc, params, elements := desc, ZeroParams(), [];
    }

    /** The description outlives a clear. */
    method Clear()
      modifies this`params, this`elements
      ensures params == ZeroParams() && elements == []
    {
      params, elements := ZeroParams(), [];
    }

    method PushBack(element: Element)
      modifies this`elements
      ensures elements == old(elements) + [element]
    {
      elements := elements + [element];
    }

    method GetActiveIndices() returns (mapping: seq<nat>)
      ensures mapping == ActiveIndices(params.bitmap)
    {
      mapping := [];
      var i := 0;
      while i < JOINT_MAX
        invariant 0 <= i <= JOINT_MAX
        invariant mapping == ActiveBelow(params.bitmap, i)
      {
        if params.bitmap[i] {
          mapping := mapping + [i];
        }
        i := i + 1;
      }
    }

    /** Accelerations are only reported unless the caller asks for them to be enforced. */
    method CheckLimits(enforceAccel: bool) returns (okay: bool)
      requires ChecksInBounds(desc, params, |elements|)
      ensures okay <==> WithinLimits(desc, params, elements, enforceAccel)
    {
      hide PositionOkay, SpeedOkay, AccelOkay;
      if !desc.okay && !params.useCustomLimits {
        return false;
      }
      var count := JointCount(desc, params);
      okay := true;
      var i := 0;
      while i < |elements|
        invariant 0 <= i <= |elements|
        invariant okay <==> forall k :: 0 <= k < i ==> ElementOkay(desc, params, elements, enforceAccel, k, count)
      {
        var elementOkay := CheckElement(enforceAccel, i, count);
        if !elementOkay {
          okay := false;
        }
        i := i + 1;
      }
    }

    /** One round of the checker: every claimed joint at one element. */
    method CheckElement(enforceAccel: bool, i: nat, count: nat) returns (okay: bool)
      requires Checkable(desc, params) && KnowsLimits(desc, params) && count == JointCount(desc, params)
      requires i < |elements|
      ensures okay <==> ElementOkay(desc, params, elements, enforceAccel, i, count)
    {
      hide Abs;
      var frequency := EffectiveFrequency(desc, params);
      var last := if i == 0 then elements[0] else elements[i - 1];
      var next := if i == |elements| - 1 then elements[i] else elements[i + 1];
      okay := true;
      var j := 0;
      while j < count
        invariant 0 <= j <= count
        invariant okay <==> ElementOkay(desc, params, elements, enforceAccel, i, j)
      {
        var name := if desc.okay then desc.joints[j].name else "";
        if params.bitmap[j] {
          var limits, x := LimitsOf(desc, params, j), elements[i].references[j];
          if limits.maxPosition + EPS < x {
            okay := false;
          } else if x < limits.minPosition - EPS {
            okay := false;
          }
          if i != 0 {
            if limits.maxSpeed + EPS < Abs(x - last.references[j]) * frequency {
              okay := false;
            }
            if i != |elements| - 1 {
              var accel := Abs(next.references[j] - 2.0 * x + last.references[j]) * frequency * frequency;
              if limits.maxAccel + EPS < accel && enforceAccel {
                okay := false;
              }
            }
          }
        }
        j := j + 1;
      }
    }

    /** Rewrites the elements as the interpolation mode asks; on failure nothing changes. */
    method Interpolate(optimal: Outcome) returns (okay: bool)
      requires Interpolable(desc, params, elements)
      modifies this`params, this`elements
      ensures okay <==> Interpolated(desc, old(params), old(elements), optimal).Done?
      ensures okay ==> Done(params, elements) == Interpolated(desc, old(params), old(elements), optimal)
      ensures !okay ==> params == old(params) && elements == old(elements)
    {
      if |elements| < 2 {
        return true;
      }
      if params.interp == Raw {
        return true;
      }
      if !desc.okay && !params.useCustomLimits {
        return false;
      }
      match params.interp
      case Optimal =>
        if optimal.Done? {
          params, elements := optimal.params, optimal.elements;
        }
        return optimal.Done?;
      case Spline =>
        okay := InterpolateSpline();
      case Saturate =>
        var setup := SaturationSetup(desc, params, elements);
        elements := Saturation.Saturate(setup);
        return true;
      case _ =>
        return false;
    }

    method InterpolateSpline() returns (okay: bool)
      requires Mappable(desc, params) && 0.0 < EffectiveFrequency(desc, params)
      modifies this`params, this`elements
      ensures okay <==> Splined(desc, old(params), old(elements)).Done?
      ensures okay ==> Done(params, elements) == Splined(desc, old(params), old(elements))
      ensures !okay ==> params == old(params) && elements == old(elements)
    {
      hide Plan.Output, Plan.SegmentMap, PlanFor, NonZeroLimits, UsableWaypoints, Pick, FromConfig;
      var mapping := GetActiveIndices();
      var limits := MappedLimits(desc, params);
      var waypoints: seq<Config> := [];
      var i := 0;
      while i < |elements|
        invariant 0 <= i <= |elements|
        invariant waypoints == Waypoints(elements[..i], mapping)
      {
        waypoints := waypoints + [Pick(elements[i].references, mapping)];
        i := i + 1;
      }
      assert elements[..i] == elements;
      var spline := new SplineInterpolation.Spline(
        waypoints, Project(limits, (l: JointLimits) => l.nominalSpeed),
        Project(limits, (l: JointLimits) => l.nominalAccel),
        EffectiveFrequency(desc, params));
      if spline.error {
        return false;
      }
      var interpolation := spline.outputTrajectory;
      if waypoints != [] { UsableIsFirst(waypoints, |mapping|, |waypoints|); }
      assert waypoints[..|waypoints|] == waypoints;
      elements := [];
      i := 0;
      while i < |interpolation|
        invariant 0 <= i <= |interpolation|
        invariant elements == FromConfigs(mapping, interpolation[..i])
        modifies this`elements
      {
        elements := elements + [FromConfig(mapping, interpolation[i])];
        i := i + 1;
      }
      assert interpolation[..i] == interpolation;
      params := params.(interp := Raw);
      return true;
    }
  }
}
