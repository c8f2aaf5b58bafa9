/** Cubic-eased interpolation between waypoints (HuboPath/interpolation/Spline.cpp).

    The program takes the longest of 3d/2v and sqrt(6d/a) over all joints, multiplies it by the frequency and rounds
    up. The model keeps the tick count and states the square root by its square. */
module SplineInterpolation {
  import opened NatArith
  import opened RealArith
  import opened SplineMath

  type Config = seq<real>

  // ----- How many ticks a segment takes -----

  /** Ticks one joint needs for a displacement dx. */
  function JointTicks(dx: real, v: real, a: real, f: real): nat
    requires v != 0.0 && a != 0.0 && 0.0 < f
  {
    if VelocityTicks(dx, v, f) < AccelTicks(dx, a, f) then AccelTicks(dx, a, f) else VelocityTicks(dx, v, f)
  }

  function VelocityTicks(dx: real, v: real, f: real): int
    requires v != 0.0
  {
    Ceil(3.0 * Abs(dx) * f / (2.0 * Abs(v)))
  }

  function AccelTicks(dx: real, a: real, f: real): nat
    requires a != 0.0
  {
    DemandIsNonNegative(dx, f);
    QuotientBound(6.0 * Abs(dx) * (f * f), Abs(a), 0.0);
    CeilSqrt(6.0 * Abs(dx) * (f * f) / Abs(a))
  }

  /** JointTicks is the least tick count that respects both limits. */
  lemma JointTicksLeast(dx: real, v: real, a: real, f: real, n: nat)
    requires v != 0.0 && a != 0.0 && 0.0 < f
    ensures JointTicks(dx, v, a, f) <= n <==> EnoughTicks(n, dx, Abs(v), Abs(a), f)
  {
    hide VelocityTicks, AccelTicks, EnoughForSpeed, EnoughForAccel, Abs;
    VelocityTicksLeast(dx, v, f, n);
    AccelTicksLeast(dx, a, f, n);
  }

  lemma VelocityTicksLeast(dx: real, v: real, f: real, n: int)
    requires v != 0.0 && 0 <= n
    ensures VelocityTicks(dx, v, f) <= n <==> EnoughForSpeed(n, dx, Abs(v), f)
  {
    hide Ceil;
    CeilBound(3.0 * Abs(dx) * f, 2.0 * Abs(v), n);
  }

  lemma AccelTicksLeast(dx: real, a: real, f: real, n: nat)
    requires a != 0.0
    ensures AccelTicks(dx, a, f) <= n <==> EnoughForAccel(n, dx, Abs(a), f)
  {
    hide CeilSqrt;
    DemandIsNonNegative(dx, f);
    CeilSqrtBound(6.0 * Abs(dx) * (f * f), Abs(a), n);
  }

  lemma DemandIsNonNegative(dx: real, f: real)
    ensures 0.0 <= 6.0 * Abs(dx) * (f * f)
  {
    var square := f * f;
    assert 0.0 <= square;
    MulNonNegative(6.0 * Abs(dx), square);
  }

  lemma CeilBound(x: real, y: real, n: int)
    requires 0.0 < y
    ensures Ceil(x / y) <= n <==> x <= n as real * y
  {
    hide Ceil;
    QuotientBound(x, y, n as real);
  }

  lemma CeilSqrtBound(x: real, y: real, n: nat)
    requires 0.0 < y && 0.0 <= x
    ensures 0.0 <= x / y
    ensures CeilSqrt(x / y) <= n <==> x <= n as real * n as real * y
  {
    hide CeilSqrt;
    var square := n as real * n as real;
    QuotientBound(x, y, square);
    assert square == (n * n) as real;
    SqrtBound(x / y, n);
  }

  lemma SqrtBound(z: real, n: nat)
    requires 0.0 <= z
    ensures CeilSqrt(z) <= n <==> z <= (n * n) as real
  {
    hide CeilSqrt;
    var root := CeilSqrt(z);
    if root <= n { SquareMonotone(root, n); }
  }

  lemma SquareMonotone(a: nat, b: nat)
    requires a <= b
    ensures a * a <= b * b
  {
    assert 0 <= (b - a) * (b + a);
  }

  // ----- What is pushed, given the number of steps of every segment -----

  function EasedConfig(last: Config, next: Config, k: nat, n: nat): (sample: Config)
    requires |next| == |last| && 0 < n
    ensures |sample| == |next|
  {
    seq(|next|, j requires 0 <= j < |next| => last[j] + Ease(k, n) * (next[j] - last[j]))
  }

  /** Samples pushed for one segment of n steps: the interior ones, then the far waypoint itself. */
  function Segment(last: Config, next: Config, n: nat): (out: seq<Config>)
    requires |next| == |last| && 0 < n
    ensures |out| == n
    ensures forall t :: 0 <= t < n ==> |out[t]| == |next|
  {
    seq(n - 1, k requires 0 <= k < n - 1 => EasedConfig(last, next, k + 1, n)) + [next]
  }

  /** Waypoints, and how many samples each segment between two of them contributes. */
  datatype Plan = Plan(path: seq<Config>, steps: seq<nat>) {

    predicate Valid() {
      && |path| == |steps| + 1
      && (forall i :: 0 <= i < |path| ==> |path[i]| == |path[0]|)
      && (forall i :: 0 <= i < |steps| ==> 0 < steps[i])
    }

    /** Sample k of segment i, which runs from waypoint i to waypoint i+1. */
    function Sample(i: nat, k: nat): (sample: Config)
      requires Valid() && i < |steps|
      ensures |sample| == |path[0]|
    {
      EasedConfig(path[i], path[i + 1], k, steps[i])
    }

    /** Index of waypoint i in the output. */
    function Base(i: nat): nat
      requires i <= |steps|
    {
      if i == 0 then 0 else Base(i - 1) + steps[i - 1]
    }

    /** Output after the first k waypoints. */
    function Output(k: nat): (out: seq<Config>)
      requires Valid() && 1 <= k <= |path|
      ensures |out| == Base(k - 1) + 1
      ensures forall t :: 0 <= t < |out| ==> |out[t]| == |path[0]|
    {
      if k == 1 then [path[0]] else Output(k - 1) + Segment(path[k - 2], path[k - 1], steps[k - 2])
    }

    /** Output size recorded after each of the first k waypoints, 0 standing for the first. */
    function SegmentMap(k: nat): (m: seq<nat>)
      requires Valid() && 1 <= k <= |path|
      ensures |m| == k
    {
      if k == 1 then [0] else SegmentMap(k - 1) + [|Output(k)|]
    }
  }

  lemma SampleEnds(plan: Plan, i: nat)
    requires plan.Valid() && i < |plan.steps|
    ensures plan.Sample(i, 0) == plan.path[i]
    ensures plan.Sample(i, plan.steps[i]) == plan.path[i + 1]
  {
    EaseEnds(plan.steps[i]);
  }

  lemma {:induction false} WaypointAt(plan: Plan, size: nat, i: nat)
    requires plan.Valid() && i < size <= |plan.path|
    ensures plan.Base(i) <= plan.Base(size - 1)
    ensures plan.Output(size)[plan.Base(i)] == plan.path[i]
    decreases size
  {
    hide Ease, EasedConfig;
    if i + 1 < size {
      WaypointAt(plan, size - 1, i);
    }
  }

  /** Where every sample of every segment lands in the output. */
  lemma {:induction false} OutputAt(plan: Plan, size: nat, i: nat, k: nat)
    requires plan.Valid() && i + 1 < size <= |plan.path| && k <= plan.steps[i]
    ensures plan.Base(i + 1) <= plan.Base(size - 1)
    ensures plan.Output(size)[plan.Base(i) + k] == plan.Sample(i, k)
    decreases size
  {
    hide Ease;
    SampleEnds(plan, i);
    if i + 2 < size {
      OutputAt(plan, size - 1, i, k);
    } else if k == 0 {
      WaypointAt(plan, size - 1, i);
    }
  }

  /** The segment map: entry 0 is 0, entry i points just past waypoint i, and the entries strictly increase. */
  lemma {:induction false} SegmentMapLocatesWaypoints(plan: Plan, size: nat, i: nat)
    requires plan.Valid() && i < size <= |plan.path|
    ensures plan.SegmentMap(size)[i] == if i == 0 then 0 else plan.Base(i) + 1
    ensures 0 < i ==> plan.SegmentMap(size)[i - 1] < plan.SegmentMap(size)[i] <= |plan.Output(size)|
    ensures 0 < i ==> plan.Output(size)[plan.SegmentMap(size)[i] - 1] == plan.path[i]
    ensures plan.Output(size)[0] == plan.path[0]
    decreases size
  {
    hide Ease, EasedConfig, Segment;
    WaypointAt(plan, size, i);
    WaypointAt(plan, size, 0);
    if i + 1 < size {
      SegmentMapLocatesWaypoints(plan, size - 1, i);
    } else if 0 < i {
      SegmentMapLocatesWaypoints(plan, size - 1, i - 1);
    }
  }

  /** Any index that GetPathSegmentIndex may return for sample t names the one segment that holds the sample, and the
      sample is a point of the straight line between that segment's two waypoints. */
  lemma SegmentHoldsSample(plan: Plan, t: nat, segment: nat) returns (k: nat, u: real)
    requires plan.Valid() && 1 < |plan.path| && t < |plan.Output(|plan.path|)|
    requires segment < |plan.path|
    requires forall i :: 1 <= i <= segment ==> plan.SegmentMap(|plan.path|)[i] <= t
    requires segment + 1 < |plan.path| ==> t < plan.SegmentMap(|plan.path|)[segment + 1]
    ensures segment < |plan.steps|
    ensures k <= plan.steps[segment] && t == plan.Base(segment) + k && (0 < t ==> 0 < k)
    ensures 0.0 <= u <= 1.0
    ensures forall j :: 0 <= j < |plan.path[0]| ==>
      plan.Output(|plan.path|)[t][j] == plan.path[segment][j] + u * (plan.path[segment + 1][j] - plan.path[segment][j])
  {
    hide Ease, Plan.Output, Plan.SegmentMap;
    SegmentMapLocatesWaypoints(plan, |plan.path|, segment);
    if segment + 1 < |plan.path| {
      SegmentMapLocatesWaypoints(plan, |plan.path|, segment + 1);
    }
    k := t - plan.Base(segment);
    u := Ease(k, plan.steps[segment]);
    OutputAt(plan, |plan.path|, segment, k);
    EaseWithinUnit(k, plan.steps[segment]);
  }

  // ----- Limits, for any plan whose segments have enough ticks -----

  /** Every segment of the plan has enough ticks for joint j under the limits v and a. */
  predicate AmpleFor(plan: Plan, j: nat, v: real, a: real, f: real)
    requires plan.Valid() && j < |plan.path[0]|
  {
    forall i :: 0 <= i < |plan.steps| ==> EnoughTicks(plan.steps[i], Displacement(plan, i, j), v, a, f)
  }

  function Displacement(plan: Plan, i: nat, j: nat): real
    requires plan.Valid() && i < |plan.steps| && j < |plan.path[0]|
  {
    plan.path[i + 1][j] - plan.path[i][j]
  }

  /** Position of joint j at output sample t. */
  function At(plan: Plan, t: nat, j: nat): real
    requires plan.Valid() && t <= plan.Base(|plan.steps|) && j < |plan.path[0]|
  {
    plan.Output(|plan.path|)[t][j]
  }

  /** Every sample but the first belongs to one segment, at a step of at least 1. */
  lemma {:induction false} Locate(plan: Plan, count: nat, t: nat) returns (i: nat, k: nat)
    requires plan.Valid() && count <= |plan.steps| && 1 <= t <= plan.Base(count)
    ensures i < count && 1 <= k <= plan.steps[i] && t == plan.Base(i) + k
  {
    if plan.Base(count - 1) < t {
      i, k := count - 1, t - plan.Base(count - 1);
    } else {
      i, k := Locate(plan, count - 1, t);
    }
  }

  lemma SampleAt(plan: Plan, i: nat, k: nat, j: nat)
    requires plan.Valid() && i < |plan.steps| && k <= plan.steps[i] && j < |plan.path[0]|
    ensures plan.Base(i) + k <= plan.Base(i + 1) <= plan.Base(|plan.steps|)
    ensures At(plan, plan.Base(i) + k, j) == plan.path[i][j] + Ease(k, plan.steps[i]) * Displacement(plan, i, j)
  {
    hide Ease, Plan.Output;
    OutputAt(plan, |plan.path|, i, k);
  }

  /** How far joint j moves in step k of segment i. */
  function Advance(plan: Plan, i: nat, k: nat, j: nat): real
    requires plan.Valid() && i < |plan.steps| && j < |plan.path[0]|
  {
    EaseStep(k, plan.steps[i]) * Displacement(plan, i, j)
  }

  lemma OutputStep(plan: Plan, i: nat, k: nat, j: nat)
    requires plan.Valid() && i < |plan.steps| && k < plan.steps[i] && j < |plan.path[0]|
    ensures plan.Base(i) + k + 1 <= plan.Base(|plan.steps|)
    ensures At(plan, plan.Base(i) + k + 1, j) - At(plan, plan.Base(i) + k, j) == Advance(plan, i, k, j)
  {
    hide Ease, At, Displacement;
    SampleAt(plan, i, k, j);
    SampleAt(plan, i, k + 1, j);
    Distribute(Ease(k + 1, plan.steps[i]), Ease(k, plan.steps[i]), Displacement(plan, i, j));
  }

  lemma AdvanceSpeed(plan: Plan, j: nat, v: real, a: real, f: real, i: nat, k: nat)
    requires plan.Valid() && j < |plan.path[0]| && 0.0 < f && AmpleFor(plan, j, v, a, f)
    requires i < |plan.steps| && k < plan.steps[i]
    ensures Abs(Advance(plan, i, k, j)) * f <= v
  {
    hide Ease, EaseStep, EnoughTicks, Displacement;
    SegmentSpeed(k, plan.steps[i], Displacement(plan, i, j), v, a, f);
  }

  lemma AdvanceBend(plan: Plan, j: nat, v: real, a: real, f: real, i: nat, k: nat)
    requires plan.Valid() && j < |plan.path[0]| && 0.0 < f && AmpleFor(plan, j, v, a, f)
    requires i < |plan.steps| && 1 <= k < plan.steps[i]
    ensures Abs(Advance(plan, i, k, j) - Advance(plan, i, k - 1, j)) * (f * f) <= a
  {
    hide Ease, EaseStep, EnoughTicks, Displacement;
    SegmentAcceleration(k, plan.steps[i], Displacement(plan, i, j), v, a, f);
    Distribute(EaseStep(k, plan.steps[i]), EaseStep(k - 1, plan.steps[i]), Displacement(plan, i, j));
  }

  lemma AdvanceEnds(plan: Plan, j: nat, v: real, a: real, f: real, i: nat)
    requires plan.Valid() && j < |plan.path[0]| && 0.0 < f && AmpleFor(plan, j, v, a, f)
    requires i < |plan.steps|
    ensures Abs(Advance(plan, i, 0, j)) * (f * f) <= a / 2.0
    ensures Abs(Advance(plan, i, plan.steps[i] - 1, j)) * (f * f) <= a / 2.0
  {
    hide Ease, EaseStep, EnoughTicks, Displacement;
    SegmentEnds(plan.steps[i], Displacement(plan, i, j), v, a, f);
  }

  /** No joint moves faster than its limit between two samples. */
  lemma {:induction false} PlanKeepsSpeed(plan: Plan, j: nat, v: real, a: real, f: real, t: nat)
    requires plan.Valid() && j < |plan.path[0]| && 0.0 < f && AmpleFor(plan, j, v, a, f)
    requires 1 <= t <= plan.Base(|plan.steps|)
    ensures Abs(At(plan, t, j) - At(plan, t - 1, j)) * f <= v
  {
    hide At, Advance, AmpleFor, Abs;
    var i, k := Locate(plan, |plan.steps|, t);
    OutputStep(plan, i, k - 1, j);
    AdvanceSpeed(plan, j, v, a, f, i, k - 1);
  }

  /** Second difference of joint j at output sample t. */
  function Bend(plan: Plan, t: nat, j: nat): real
    requires plan.Valid() && 1 <= t < plan.Base(|plan.steps|) && j < |plan.path[0]|
  {
    At(plan, t + 1, j) - 2.0 * At(plan, t, j) + At(plan, t - 1, j)
  }

  /** No joint exceeds its acceleration limit at any interior sample, the waypoints included. */
  lemma {:induction false} PlanKeepsAcceleration(plan: Plan, j: nat, v: real, a: real, f: real, t: nat)
    requires plan.Valid() && j < |plan.path[0]| && 0.0 < f && AmpleFor(plan, j, v, a, f)
    requires 1 <= t < plan.Base(|plan.steps|)
    ensures Abs(Bend(plan, t, j)) * (f * f) <= a
  {
    hide At, Advance, AmpleFor, Abs;
    var i, k := Locate(plan, |plan.steps|, t);
    OutputStep(plan, i, k - 1, j);
    if k < plan.steps[i] {
      OutputStep(plan, i, k, j);
      AdvanceBend(plan, j, v, a, f, i, k);
      SecondDifference(At(plan, t + 1, j), At(plan, t, j), At(plan, t - 1, j),
                       Advance(plan, i, k, j), Advance(plan, i, k - 1, j));
    } else {
      OutputStep(plan, i + 1, 0, j);
      AdvanceEnds(plan, j, v, a, f, i);
      AdvanceEnds(plan, j, v, a, f, i + 1);
      HalvesAdd(Advance(plan, i + 1, 0, j), Advance(plan, i, k - 1, j), f * f, a);
      SecondDifference(At(plan, t + 1, j), At(plan, t, j), At(plan, t - 1, j),
                       Advance(plan, i + 1, 0, j), Advance(plan, i, k - 1, j));
    }
  }

  lemma SecondDifference(x2: real, x1: real, x0: real, later: real, earlier: real)
    requires x2 - x1 == later && x1 - x0 == earlier
    ensures x2 - 2.0 * x1 + x0 == later - earlier
  {}
  lemma HalvesAdd(x: real, y: real, w: real, a: real)
    requires 0.0 <= w && Abs(x) * w <= a / 2.0 && Abs(y) * w <= a / 2.0
    ensures Abs(x - y) * w <= a
  {
    AbsTriangle(x, y);
    MulMonotone(Abs(x - y), Abs(x) + Abs(y), w);
  }

  /** Samples stay inside any interval that holds every waypoint. */
  lemma PlanKeepsPosition(plan: Plan, j: nat, lo: real, hi: real, t: nat)
    requires plan.Valid() && j < |plan.path[0]|
    requires forall i :: 0 <= i < |plan.path| ==> lo <= plan.path[i][j] <= hi
    requires t <= plan.Base(|plan.steps|)
    ensures lo <= At(plan, t, j) <= hi
  {
    hide Ease, Plan.Output;
    if t == 0 {
      WaypointAt(plan, |plan.path|, 0);
    } else {
      var i, k := Locate(plan, |plan.steps|, t);
      SampleAt(plan, i, k, j);
      EaseWithinUnit(k, plan.steps[i]);
      Between(plan.path[i][j], plan.path[i + 1][j], Ease(k, plan.steps[i]), lo, hi);
    }
  }

  lemma Between(x: real, y: real, u: real, lo: real, hi: real)
    requires 0.0 <= u <= 1.0 && lo <= x <= hi && lo <= y <= hi
    ensures lo <= x + u * (y - x) <= hi
  {
    MulNonNegative(u, y - lo);
    MulNonNegative(1.0 - u, x - lo);
    MulNonNegative(u, hi - y);
    MulNonNegative(1.0 - u, hi - x);
  }

  // ----- The class -----

  predicate NonZeroLimits(v: Config, a: Config)
    requires |v| == |a|
  {
    NonZeroBelow(v, a, |v|)
  }

  predicate NonZeroBelow(v: Config, a: Config, k: nat)
    requires k <= |v| == |a|
  {
    forall j :: 0 <= j < k ==> v[j] != 0.0 && a[j] != 0.0
  }

  /** How many joints come before the first one with a zero limit. */
  function UsableJoints(v: Config, a: Config, k: nat): (usable: nat)
    requires k <= |v| == |a|
    ensures usable <= k && NonZeroBelow(v, a, usable)
    ensures usable == k || v[usable] == 0.0 || a[usable] == 0.0
  {
    if k == 0 then 0
    else
      var before := UsableJoints(v, a, k - 1);
      if before == k - 1 && v[k - 1] != 0.0 && a[k - 1] != 0.0 then k else before
  }

  /** Ticks the slowest of the first k joints needs for one displacement. */
  function TicksBelow(diff: Config, v: Config, a: Config, f: real, k: nat): nat
    requires |diff| == |v| == |a| && k <= |v| && 0.0 < f && NonZeroBelow(v, a, k)
  {
    if k == 0 then 0 else MaxNat(TicksBelow(diff, v, a, f, k - 1), JointTicks(diff[k - 1], v[k - 1], a[k - 1], f))
  }

  function Subtract(next: Config, last: Config): (diff: Config)
    requires |next| == |last|
    ensures |diff| == |next|
  {
    seq(|next|, j requires 0 <= j < |next| => next[j] - last[j])
  }

  /** Limits and waypoints of one size; the size of a lone waypoint plays no part. */
  predicate Sized(path: seq<Config>, v: Config, a: Config, f: real) {
    && 0 < |path| && 0.0 < f && |v| == |a|
    && (1 < |path| ==> forall i :: 0 <= i < |path| ==> |path[i]| == |v|)
  }

  /** What a spline needs in order to come out valid. */
  predicate Splinable(path: seq<Config>, v: Config, a: Config, f: real) {
    Sized(path, v, a, f) && (1 < |path| ==> NonZeroLimits(v, a))
  }

  /** The ticks computed for a displacement; joints from the first zero limit on are not looked at. */
  function TicksOf(diff: Config, v: Config, a: Config, f: real): nat
    requires |diff| == |v| == |a| && 0.0 < f
  {
    TicksBelow(diff, v, a, f, UsableJoints(v, a, |v|))
  }

  /** A segment contributes the ticks of its slowest joint, and at least one sample. */
  function StepsOf(last: Config, next: Config, v: Config, a: Config, f: real): (n: nat)
    requires |last| == |next| == |v| == |a| && 0.0 < f
    ensures 0 < n
  {
    MaxNat(TicksOf(Subtract(next, last), v, a, f), 1)
  }

  /** Samples of segment i. Once a zero limit was met, every later segment is a single sample. */
  function StepCount(path: seq<Config>, v: Config, a: Config, f: real, i: nat): (n: nat)
    requires Sized(path, v, a, f) && i + 1 < |path|
    ensures 0 < n
  {
    if 0 < i && !NonZeroLimits(v, a) then 1 else StepsOf(path[i], path[i + 1], v, a, f)
  }

  function StepCounts(path: seq<Config>, v: Config, a: Config, f: real): (steps: seq<nat>)
    requires Sized(path, v, a, f)
    ensures |steps| == |path| - 1
    ensures forall i :: 0 <= i < |steps| ==> steps[i] == StepCount(path, v, a, f, i)
  {
    seq(|path| - 1, i requires 0 <= i < |path| - 1 => StepCount(path, v, a, f, i))
  }

  function PlanFor(path: seq<Config>, v: Config, a: Config, f: real): (plan: Plan)
    requires Sized(path, v, a, f)
    ensures plan.Valid() && plan.path == path
  {
    Plan(path, StepCounts(path, v, a, f))
  }

  /** How many of the first k waypoints come before the first one, after the start, of the wrong size. */
  function UsableWaypoints(path: seq<Config>, size: nat, k: nat): (usable: nat)
    requires 1 <= k <= |path|
    ensures 1 <= usable <= k && forall i :: 1 <= i < usable ==> |path[i]| == size
    ensures usable == k || |path[usable]| != size
  {
    if k == 1 then 1
    else
      var before := UsableWaypoints(path, size, k - 1);
      if before == k - 1 && |path[k - 1]| == size then k else before
  }

  /** The plan has enough ticks for every joint, so PlanKeepsSpeed and PlanKeepsAcceleration apply to it. */
  lemma PlanForIsAmple(path: seq<Config>, v: Config, a: Config, f: real, j: nat)
    requires Splinable(path, v, a, f) && j < |v| && j < |path[0]|
    ensures AmpleFor(PlanFor(path, v, a, f), j, Abs(v[j]), Abs(a[j]), f)
  {
    hide EnoughTicks, StepCount, Abs, Displacement;
    var plan := PlanFor(path, v, a, f);
    forall i | 0 <= i < |plan.steps|
      ensures EnoughTicks(plan.steps[i], Displacement(plan, i, j), Abs(v[j]), Abs(a[j]), f)
    {
      PlanIsLeast(path, v, a, f, i, plan.steps[i]);
      DisplacementIs(plan, i, j);
    }
  }

  lemma DisplacementIs(plan: Plan, i: nat, j: nat)
    requires plan.Valid() && i < |plan.steps| && j < |plan.path[0]|
    ensures |plan.path[i]| == |plan.path[i + 1]| == |plan.path[0]|
    ensures Displacement(plan, i, j) == plan.path[i + 1][j] - plan.path[i][j]
  {}

  lemma {:induction false} TicksBelowLeast(diff: Config, v: Config, a: Config, f: real, k: nat, n: nat)
    requires |diff| == |v| == |a| && k <= |v| && 0.0 < f && NonZeroBelow(v, a, k)
    ensures TicksBelow(diff, v, a, f, k) <= n
      <==> forall j :: 0 <= j < k ==> EnoughTicks(n, diff[j], Abs(v[j]), Abs(a[j]), f)
  {
    hide JointTicks, EnoughTicks, Abs;
    if 0 < k {
      TicksBelowLeast(diff, v, a, f, k - 1, n);
      JointTicksLeast(diff[k - 1], v[k - 1], a[k - 1], f, n);
    }
  }

  /** No segment is longer than its joints' limits require: its steps are the least number, and at least one, that is
      enough for every joint. */
  lemma PlanIsLeast(path: seq<Config>, v: Config, a: Config, f: real, i: nat, n: nat)
    requires Splinable(path, v, a, f) && i + 1 < |path| && 1 <= n
    ensures PlanFor(path, v, a, f).steps[i] <= n
      <==> forall j :: 0 <= j < |v| ==> EnoughTicks(n, path[i + 1][j] - path[i][j], Abs(v[j]), Abs(a[j]), f)
  {
    hide EnoughTicks, TicksBelow, Abs;
    TicksBelowLeast(Subtract(path[i + 1], path[i]), v, a, f, |v|, n);
    assert UsableJoints(v, a, |v|) == |v|;
  }

  class Spline {
    var error: bool
    var outputTrajectory: seq<Config>
    var pathSegmentMap: seq<nat>
    const maxVelocity: Config
    const maxAccel: Config
    const frequency: real

    /** The vector library demands that the first waypoint matches the second one; the program never checks it. */
    constructor (path: seq<Config>, maxVelocity: Config, maxAccel: Config, frequency: real)
      requires 0.0 < frequency
      requires 1 < |path| && |path[1]| == |maxVelocity| == |maxAccel| ==> |path[0]| == |maxVelocity|
      ensures !error <==> path == [] || Splinable(path, maxVelocity, maxAccel, frequency)
      ensures path == [] || |maxVelocity| != |maxAccel| ==> outputTrajectory == [] && pathSegmentMap == []
      ensures path != [] && |maxVelocity| == |maxAccel| ==>
        var m := UsableWaypoints(path, |maxVelocity|, |path|);
        Sized(path[..m], maxVelocity, maxAccel, frequency) &&
        var plan := PlanFor(path[..m], maxVelocity, maxAccel, frequency);
        outputTrajectory == plan.Output(m) && pathSegmentMap == plan.SegmentMap(m)
      ensures this.maxVelocity == maxVelocity && this.maxAccel == maxAccel && this.frequency == frequency
    {
      hide Plan.Output, Plan.SegmentMap, StepCount, Segment, NonZeroLimits, UsableWaypoints;
      this.error := false;
      this.maxVelocity, this.maxAccel, this.frequency := maxVelocity, maxAccel, frequency;
      outputTrajectory, pathSegmentMap := [], [];
      new;
      if |path| == 0 {
        return;
      }
      if |maxVelocity| != |maxAccel| {
        error := true;
        return;
      }
      outputTrajectory := outputTrajectory + [path[0]];
      pathSegmentMap := pathSegmentMap + [0];
      PlanStarts(path, maxVelocity, maxAccel, frequency);
      var i := 1;
      while i < |path|
        invariant 1 <= i <= |path|
        invariant forall k :: 1 <= k < i ==> |path[k]| == |maxVelocity|
        invariant error <==> 1 < i && !NonZeroLimits(maxVelocity, maxAccel)
        invariant Sized(path[..i], maxVelocity, maxAccel, frequency)
        invariant var plan := PlanFor(path[..i], maxVelocity, maxAccel, frequency);
          outputTrajectory == plan.Output(i) && pathSegmentMap == plan.SegmentMap(i)
      {
        if |path[i]| != |maxVelocity| {
          error := true;
          UsableIsFirst(path, |maxVelocity|, i);
          return;
        }
        InterpolateNextStep(path[i], path[i - 1]);
        pathSegmentMap := pathSegmentMap + [|outputTrajectory|];
        PlanExtends(path, maxVelocity, maxAccel, frequency, i);
        i := i + 1;
      }
      UsableIsFirst(path, |maxVelocity|, |path|);
      assert path[..|path|] == path;
    }

    /** Appends the samples that lead from one waypoint to the next. */
    method InterpolateNextStep(nextConfig: Config, lastConfig: Config)
      requires 0.0 < frequency && |maxVelocity| == |maxAccel| == |nextConfig| == |lastConfig|
      modifies this`error, this`outputTrajectory
      ensures error <==> old(error) || !NonZeroLimits(maxVelocity, maxAccel)
      ensures var n := if old(error) then 1 else StepsOf(lastConfig, nextConfig, maxVelocity, maxAccel, frequency);
        outputTrajectory == old(outputTrajectory) + Segment(lastConfig, nextConfig, n)
    {
      var ticks := GetMinimumTicks(Subtract(nextConfig, lastConfig));
      var n := MaxNat(ticks, 1);
      var i := 1;
      while i < ticks
        invariant 1 <= i <= n
        invariant outputTrajectory == old(outputTrajectory) + Segment(lastConfig, nextConfig, n)[..i - 1]
        modifies this`outputTrajectory
      {
        outputTrajectory := outputTrajectory + [EasedConfig(lastConfig, nextConfig, i, ticks)];
        i := i + 1;
      }
      outputTrajectory := outputTrajectory + [nextConfig];
    }

    /** The slowest joint's tick count; a zero limit makes the spline invalid. */
    method GetMinimumTicks(diff: Config) returns (ticks: nat)
      requires 0.0 < frequency && |maxVelocity| == |maxAccel| == |diff|
      modifies this`error
      ensures error <==> old(error) || !NonZeroLimits(maxVelocity, maxAccel)
      ensures ticks == if old(error) then 0 else TicksOf(diff, maxVelocity, maxAccel, frequency)
    {
      hide JointTicks;
      ticks := 0;
      var i := 0;
      while i < |diff|
        invariant 0 <= i <= |diff|
        invariant error <==> old(error) || UsableJoints(maxVelocity, maxAccel, i) < i
        invariant ticks == if old(error) then 0
          else TicksBelow(diff, maxVelocity, maxAccel, frequency, UsableJoints(maxVelocity, maxAccel, i))
      {
        var time := GetCubicSplineTicks(diff[i], maxVelocity[i], maxAccel[i]);
        if ticks < time {
          ticks := time;
        }
        i := i + 1;
      }
    }

    method GetCubicSplineTicks(dx: real, maxVel: real, maxAcc: real) returns (ticks: nat)
      requires 0.0 < frequency
      modifies this`error
      ensures error <==> old(error) || maxVel == 0.0 || maxAcc == 0.0
      ensures !error ==> ticks == JointTicks(dx, maxVel, maxAcc, frequency)
      ensures error ==> ticks == 0
    {
      if Abs(maxVel) <= 0.0 {
        error := true;
      }
      if Abs(maxAcc) <= 0.0 {
        error := true;
      }
      if error {
        return 0;
      }
      return JointTicks(dx, maxVel, maxAcc, frequency);
    }

    /** The segment an output sample belongs to; past the end, the number of segments. */
    method GetPathSegmentIndex(timestep: nat) returns (segment: nat)
      requires pathSegmentMap != []
      ensures segment < |pathSegmentMap|
      ensures forall i :: 1 <= i <= segment ==> pathSegmentMap[i] <= timestep
      ensures segment + 1 < |pathSegmentMap| ==> timestep < pathSegmentMap[segment + 1]
    {
      var i := 0;
      while i < |pathSegmentMap| - 1
        invariant 0 <= i <= |pathSegmentMap| - 1
        invariant forall k :: 1 <= k <= i ==> pathSegmentMap[k] <= timestep
      {
        if timestep < pathSegmentMap[i + 1] {
          return i;
        }
        i := i + 1;
      }
      return |pathSegmentMap| - 1;
    }
  }

  lemma {:induction false} UsableIsFirst(path: seq<Config>, size: nat, m: nat)
    requires 1 <= m <= |path| && (forall i :: 1 <= i < m ==> |path[i]| == size) && (m < |path| ==> |path[m]| != size)
    ensures UsableWaypoints(path, size, |path|) == m
  {}

  lemma PlanStarts(path: seq<Config>, v: Config, a: Config, f: real)
    requires path != [] && |v| == |a| && 0.0 < f
    ensures Sized(path[..1], v, a, f)
    ensures var plan := PlanFor(path[..1], v, a, f); plan.Output(1) == [path[0]] && plan.SegmentMap(1) == [0]
  {}

  /** Planning one waypoint more keeps the earlier segments. */
  lemma PlanExtends(path: seq<Config>, v: Config, a: Config, f: real, i: nat)
    requires 1 <= i < |path| && Sized(path[..i], v, a, f) && |path[i - 1]| == |path[i]| == |v|
    ensures Sized(path[..i + 1], v, a, f)
    ensures var before, after := PlanFor(path[..i], v, a, f), PlanFor(path[..i + 1], v, a, f);
      var n := if 1 < i && !NonZeroLimits(v, a) then 1 else StepsOf(path[i - 1], path[i], v, a, f);
      && after.Output(i + 1) == before.Output(i) + Segment(path[i - 1], path[i], n)
      && after.SegmentMap(i + 1) == before.SegmentMap(i) + [|after.Output(i + 1)|]
  {
    hide StepsOf, Segment, Ease;
    var before, after := PlanFor(path[..i], v, a, f), PlanFor(path[..i + 1], v, a, f);
    PrefixPlan(before, after, i);
  }

  lemma {:induction false} PrefixPlan(before: Plan, after: Plan, k: nat)
    requires before.Valid() && after.Valid() && 1 <= k <= |before.path| <= |after.path|
    requires before.path == after.path[..|before.path|] && before.steps == after.steps[..|before.steps|]
    ensures after.Output(k) == before.Output(k) && after.SegmentMap(k) == before.SegmentMap(k)
  {
    hide Segment, Ease;
    if 1 < k {
      PrefixPlan(before, after, k - 1);
    }
  }
}
