/** The cached lookup of the planner's trajectory steps (HuboPath/interpolation/Trajectory.cpp). */
module SegmentLookup {
  import opened PathVelocity

  datatype Step = Step(pathPos: real, pathVel: real, time: real)

  /** Index of the first step that ends after the query, by a fresh linear search; the last step when none does. */
  function FirstAfter(steps: seq<Step>, time: real): (i: nat)
    requires steps != []
    ensures i < |steps|
    ensures forall k :: 0 <= k < i ==> steps[k].time <= time
    ensures i < |steps| - 1 ==> time < steps[i].time
  {
    if |steps| == 1 || time < steps[0].time then 0
    else
      var rest := FirstAfter(steps[1..], time);
      assert forall k :: 1 <= k < rest + 1 ==> steps[k] == steps[1..][k - 1];
      rest + 1
  }

  class PlannedTrajectory {
    const steps: seq<Step>
    /** Unbounded stands for the largest double, which no query exceeds. */
    var cachedTime: Bound
    var cachedSegment: nat

    /** No step before the cached one ends after the cached query. */
    predicate Valid()
      reads this
    {
      && steps != []
      && (cachedTime.Finite? ==>
        cachedSegment < |steps| && forall k :: 0 <= k < cachedSegment ==> steps[k].time <= cachedTime.value)
    }

    constructor (steps: seq<Step>)
      requires steps != []
      ensures Valid() && this.steps == steps
    {
      this.steps, cachedTime, cachedSegment := steps, Unbounded, 0;
    }

    /** The cache never shows: the answer is that of a fresh search, in whatever order the queries come, and also when
        the step times are not sorted. A query at or past the end yields the last step. */
    method GetTrajectorySegment(time: real) returns (segment: nat)
      requires Valid()
      modifies this
      ensures Valid()
      ensures segment < |steps|
      ensures segment == if steps[|steps| - 1].time <= time then |steps| - 1 else FirstAfter(steps, time)
    {
      if steps[|steps| - 1].time <= time {
        return |steps| - 1;
      }
      if cachedTime.Unbounded? || time < cachedTime.value {
        cachedSegment := 0;
      }
      while steps[cachedSegment].time <= time
        invariant cachedSegment < |steps|
        invariant forall k :: 0 <= k < cachedSegment ==> steps[k].time <= time
        invariant cachedTime == old(cachedTime)
        decreases |steps| - cachedSegment
      {
        cachedSegment := cachedSegment + 1;
      }
      cachedTime := Finite(time);
      FirstAfterIsUnique(steps, time, cachedSegment);
      return cachedSegment;
    }
  }

  lemma FirstAfterIsUnique(steps: seq<Step>, time: real, i: nat)
    requires i < |steps| && time < steps[i].time && forall k :: 0 <= k < i ==> steps[k].time <= time
    ensures FirstAfter(steps, time) == i
  {
    var first := FirstAfter(steps, time);
  }
}
