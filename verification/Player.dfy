/** The trajectory player (HuboPath/src/Player.cpp): loads, checks and steps through trajectories in real time. */
module TrajectoryPlayer {
  import opened RealArith
  import opened PathTypes
  import opened PathTrajectory

  datatype Option<T> = None | Some(value: T)

  datatype Instruction = Quit | Run | Pause | Reverse | Load | LoadAndGo

  /** What the outside world answers during one step: whether the state could be updated, whether time has passed, a new
      instruction if there is one, the trajectory `receive_trajectory` returned if it succeeded, the joints' current
      references, and the time-optimal planner's answer. */
  datatype Inputs = Inputs(
    updated: bool, timePassed: bool, instruction: Option<Instruction>,
    received: Option<(Params, seq<Element>)>, references: seq<real>, optimal: Outcome)

  /** `sent` holds the elements commanded since the trajectory was loaded, `start` the references it was loaded at, and
      `mode` the interpolation it asked for. */
  datatype State = State(
    params: Params, elements: seq<Element>, index: int, newTrajectory: bool,
    incoming: Instruction, current: Instruction,
    start: seq<real>, mode: Interp, sent: seq<Element>)

  function Initial(): State {
    State(ZeroParams(), [], 0, false, Quit, Quit, [], Raw, [])
  }

  /** Joint j is both claimed by the trajectory and known to the robot. */
  predicate Commands(desc: Description, params: Params, j: nat) {
    j < |desc.joints| && j < JOINT_MAX && params.bitmap[j]
  }

  /** Every commanded joint starts where it is. */
  predicate StartsHere(desc: Description, params: Params, elements: seq<Element>, references: seq<real>)
    requires |references| == |desc.joints|
  {
    forall j :: 0 <= j < |desc.joints| && Commands(desc, params, j) ==>
      elements != [] && elements[0].references[j] == references[j]
  }

  /** What the program takes for granted: a joint table that fits the 64-bit map, a first element to look at when a
      joint is commanded, and lookups within its tables when a trajectory gets as far as being interpolated and
      checked. */
  predicate Usable(desc: Description, inputs: Inputs) {
    && |desc.joints| <= JOINT_MAX
    && |inputs.references| == |desc.joints|
    && (inputs.received.Some? ==>
      var (params, elements) := inputs.received.value;
      && (elements == [] ==> forall j :: 0 <= j < |desc.joints| ==> !Commands(desc, params, j))
      && (StartsHere(desc, params, elements, inputs.references) ==>
        && Interpolable(desc, params, elements)
        && var result := Interpolated(desc, params, elements, inputs.optimal);
          result.Done? ==> ChecksInBounds(desc, result.params, |result.elements|)))
  }

  /** The trajectory that ends up loaded, if every test passes. */
  function Accepted(desc: Description, inputs: Inputs): Outcome
    requires Usable(desc, inputs)
  {
    if inputs.received.None? then Failed
    else
      var (params, elements) := inputs.received.value;
      if !StartsHere(desc, params, elements, inputs.references) then Failed
      else
        var result := Interpolated(desc, params, elements, inputs.optimal);
        if result.Done? && WithinLimits(desc, result.params, result.elements, false) then result else Failed
  }

  /** A successful load leaves the instruction variables alone. */
  function Loaded(desc: Description, s: State, inputs: Inputs): State
    requires Usable(desc, inputs) && Accepted(desc, inputs).Done?
  {
    var result := Accepted(desc, inputs);
    s.(params := result.params, elements := result.elements, index := 0, newTrajectory := true,
       start := inputs.references, mode := inputs.received.value.0.interp, sent := [])
  }

  function Cleared(s: State): State {
    s.(params := ZeroParams(), elements := [], sent := [])
  }

  /** Where the playback index goes. */
  function Moved(instruction: Instruction, index: int, size: nat): int {
    match instruction
    case Run => if index + 1 >= size then size - 1 else index + 1
    case Reverse => if index - 1 < 0 then 0 else index - 1
    case _ => index
  }

  function Play(s: State): State
    requires s.elements != [] && (s.newTrajectory || 0 <= s.index < |s.elements|)
  {
    var index := Moved(s.current, if s.newTrajectory then 0 else s.index, |s.elements|);
    s.(index := index, newTrajectory := false, sent := s.sent + [s.elements[index]])
  }

  predicate IndexInRange(s: State) {
    s.elements != [] ==> 0 <= s.index < |s.elements|
  }

  /** One step of the player. */
  function StepState(desc: Description, s: State, inputs: Inputs): (s': State)
    requires Usable(desc, inputs) && IndexInRange(s)
    ensures IndexInRange(s')
  {
    if !inputs.updated || !inputs.timePassed then s
    else if inputs.instruction.Some? then React(desc, s.(incoming := inputs.instruction.value), true, inputs)
    else React(desc, s, false, inputs)
  }

  /** What the player does about its incoming instruction. */
  function React(desc: Description, s: State, isNew: bool, inputs: Inputs): (s': State)
    requires Usable(desc, inputs) && IndexInRange(s)
    ensures IndexInRange(s')
  {
    if s.incoming == Load || s.incoming == LoadAndGo then
      if isNew then Reload(desc, s, inputs) else s
    else if s.incoming == Quit && s.current != Quit then Cleared(s).(current := Quit)
    else if s.current == Quit then
      if s.incoming == Quit then s else Begin(desc, s, inputs)
    else Continue(s.(current := s.incoming))
  }

  /** An explicit load: run or pause on success, quit on failure. */
  function Reload(desc: Description, s: State, inputs: Inputs): State
    requires Usable(desc, inputs)
  {
    var next := if s.incoming == LoadAndGo then Run else Pause;
    if Accepted(desc, inputs).Done? then Loaded(desc, s, inputs).(current := next, incoming := next)
    else Cleared(s).(current := Quit, incoming := Quit)
  }

  /** A player that has quit loads before it follows an instruction; while that fails it tries again every step. */
  function Begin(desc: Description, s: State, inputs: Inputs): State
    requires Usable(desc, inputs)
  {
    if Accepted(desc, inputs).Done? then Loaded(desc, s, inputs).(current := s.incoming) else Cleared(s)
  }

  function Continue(s: State): State
    requires IndexInRange(s)
  {
    if s.elements == [] then s else Play(s)
  }

  // ----- Safety -----

  /** A joint stands still, or two of its positions are one speed-limited tick apart at most, give or take the checker's
      slack. */
  predicate OneTick(limits: JointLimits, f: real, x: real, y: real) {
    x == y || Abs(y - x) * f <= limits.maxSpeed + EPS
  }

  /** Every pair of consecutive commands, and the first command after the starting reference, is one tick apart. */
  predicate SessionSafe(desc: Description, s: State) {
    var f := EffectiveFrequency(desc, s.params);
    && (s.sent != [] ==> KnowsLimits(desc, s.params))
    && (forall k, j :: 0 < k < |s.sent| && 0 <= j < |desc.joints| && Commands(desc, s.params, j) ==>
      OneTick(LimitsOf(desc, s.params, j), f, s.sent[k - 1].references[j], s.sent[k].references[j]))
    && (s.mode != Optimal && s.sent != [] ==>
      |s.start| == |desc.joints| &&
      forall j :: 0 <= j < |desc.joints| && Commands(desc, s.params, j) ==>
        OneTick(LimitsOf(desc, s.params, j), f, s.start[j], s.sent[0].references[j]))
  }

  predicate Inv(desc: Description, s: State) {
    && |desc.joints| <= JOINT_MAX
    && (s.current == Quit ==> s.elements == [])
    && s.current != Load && s.current != LoadAndGo
    && (s.elements == [] ==> s.sent == [])
    && (s.elements != [] ==>
      && IndexInRange(s)
      && ChecksInBounds(desc, s.params, |s.elements|)
      && WithinLimits(desc, s.params, s.elements, false)
      && (s.newTrajectory ==> s.sent == [])
      && (!s.newTrajectory ==> s.sent != [] && s.sent[|s.sent| - 1] == s.elements[s.index])
      && (s.mode != Optimal ==> |s.start| == |desc.joints| && StartsHere(desc, s.params, s.elements, s.start)))
    && SessionSafe(desc, s)
  }

  lemma InitialInv(desc: Description)
    requires |desc.joints| <= JOINT_MAX
    ensures Inv(desc, Initial())
  {}

  /** Splining, saturating and raw playback keep the first element of the claimed joints. */
  lemma InterpolationKeepsStart(desc: Description, params: Params, elements: seq<Element>, optimal: Outcome, j: nat)
    requires Interpolable(desc, params, elements) && elements != [] && params.interp != Optimal
    requires Interpolated(desc, params, elements, optimal).Done? && j < JOINT_MAX && params.bitmap[j]
    ensures var result := Interpolated(desc, params, elements, optimal);
      && result.params.bitmap == params.bitmap
      && EffectiveFrequency(desc, result.params) == EffectiveFrequency(desc, params)
      && result.elements != [] && result.elements[0].references[j] == elements[0].references[j]
  {
    var result := Interpolated(desc, params, elements, optimal);
    if 2 <= |elements| && params.interp == Spline {
      SplineKeepsStart(desc, params, elements, j);
    } else if 2 <= |elements| && params.interp == Saturate {
      Saturation.SaturatedKeepsSpeed(SaturationSetup(desc, params, elements));
    }
  }

  lemma SplineKeepsStart(desc: Description, params: Params, elements: seq<Element>, j: nat)
    requires Mappable(desc, params) && 0.0 < EffectiveFrequency(desc, params)
    requires elements != [] && Splined(desc, params, elements).Done? && j < JOINT_MAX && params.bitmap[j]
    ensures var out := Splined(desc, params, elements).elements;
      out != [] && out[0].references[j] == elements[0].references[j]
  {
    var mapping, limits := ActiveIndices(params.bitmap), MappedLimits(desc, params);
    var path := Waypoints(elements, mapping);
    var plan := SplineInterpolation.PlanFor(
      path, Project(limits, (l: JointLimits) => l.nominalSpeed), Project(limits, (l: JointLimits) => l.nominalAccel),
      EffectiveFrequency(desc, params));
    var n :| 0 <= n < |mapping| && mapping[n] == j;
    SplineInterpolation.WaypointAt(plan, |path|, 0);
    PatchAt(ZeroElement().references, mapping, path[0], |mapping|, n);
  }

  lemma AdjacentIsOneTick(desc: Description, params: Params, elements: seq<Element>, from: nat, to: nat, j: nat)
    requires |desc.joints| <= JOINT_MAX && ChecksInBounds(desc, params, |elements|)
    requires WithinLimits(desc, params, elements, false)
    requires from < |elements| && to < |elements| && -1 <= to - from <= 1 && Commands(desc, params, j)
    ensures OneTick(LimitsOf(desc, params, j), EffectiveFrequency(desc, params),
                    elements[from].references[j], elements[to].references[j])
  {
    var later := if from < to then to else from;
    assert ElementOkay(desc, params, elements, false, later, JointCount(desc, params));
    assert JointOkay(LimitsOf(desc, params, j), EffectiveFrequency(desc, params), elements, false, later, j);
  }

  lemma AcceptedIsSound(desc: Description, inputs: Inputs)
    requires Usable(desc, inputs) && Accepted(desc, inputs).Done?
    ensures var result := Accepted(desc, inputs);
      && ChecksInBounds(desc, result.params, |result.elements|)
      && WithinLimits(desc, result.params, result.elements, false)
      && (inputs.received.value.0.interp != Optimal ==>
        StartsHere(desc, result.params, result.elements, inputs.references))
  {
    hide Splined, Saturation.Saturated, WithinLimits;
    var (params, elements) := inputs.received.value;
    var result := Accepted(desc, inputs);
    if params.interp != Optimal && elements != [] {
      forall j | 0 <= j < JOINT_MAX && params.bitmap[j]
        ensures result.params.bitmap == params.bitmap && result.elements != []
        ensures result.elements[0].references[j] == elements[0].references[j]
      {
        InterpolationKeepsStart(desc, params, elements, inputs.optimal, j);
      }
    }
    if params.interp != Optimal {
      InterpolationKeepsParams(desc, params, elements, inputs.optimal);
    }
  }

  lemma InterpolationKeepsParams(desc: Description, params: Params, elements: seq<Element>, optimal: Outcome)
    requires Interpolable(desc, params, elements) && params.interp != Optimal
    requires Interpolated(desc, params, elements, optimal).Done?
    ensures var result := Interpolated(desc, params, elements, optimal);
      && result.params == params.(interp := result.params.interp)
      && EffectiveFrequency(desc, result.params) == EffectiveFrequency(desc, params)
  {}

  lemma LoadedInv(desc: Description, s: State, inputs: Inputs, current: Instruction)
    requires Inv(desc, s) && Usable(desc, inputs) && Accepted(desc, inputs).Done?
    requires current != Quit && current != Load && current != LoadAndGo
    ensures Inv(desc, Loaded(desc, s, inputs).(current := current))
    ensures Inv(desc, Loaded(desc, s, inputs).(current := current, incoming := current))
  {
    hide Accepted, WithinLimits, StartsHere;
    AcceptedIsSound(desc, inputs);
  }

  lemma PlayInv(desc: Description, s: State)
    requires Inv(desc, s) && s.elements != []
    ensures Inv(desc, Play(s))
  {
    assert KnowsLimits(desc, s.params);
    hide WithinLimits, OneTick, LimitsOf;
    var t := Play(s);
    var f, from := EffectiveFrequency(desc, s.params), if s.newTrajectory then 0 else s.index;
    forall j | 0 <= j < |desc.joints| && Commands(desc, s.params, j)
      ensures OneTick(LimitsOf(desc, s.params, j), f, s.elements[from].references[j], s.elements[t.index].references[j])
    {
      AdjacentIsOneTick(desc, s.params, s.elements, from, t.index, j);
    }
  }

  lemma StepInv(desc: Description, s: State, inputs: Inputs)
    requires Inv(desc, s) && Usable(desc, inputs)
    ensures Inv(desc, StepState(desc, s, inputs))
  {
    hide React;
    if inputs.updated && inputs.timePassed {
      if inputs.instruction.Some? {
        ReactInv(desc, s.(incoming := inputs.instruction.value), true, inputs);
      } else {
        ReactInv(desc, s, false, inputs);
      }
    }
  }

  lemma ReactInv(desc: Description, s: State, isNew: bool, inputs: Inputs)
    requires Inv(desc, s) && Usable(desc, inputs)
    ensures Inv(desc, React(desc, s, isNew, inputs))
  {
    hide Accepted, Loaded, Play, WithinLimits, OneTick, StartsHere;
    if s.incoming == Load || s.incoming == LoadAndGo {
      if Accepted(desc, inputs).Done? {
        LoadedInv(desc, s, inputs, if s.incoming == LoadAndGo then Run else Pause);
      }
    } else if s.incoming != Quit && s.current == Quit {
      if Accepted(desc, inputs).Done? {
        LoadedInv(desc, s, inputs, s.incoming);
      }
    } else if s.incoming != Quit && s.elements != [] {
      PlayInv(desc, s.(current := s.incoming));
    }
  }

  /** The state after a sequence of steps. */
  function After(desc: Description, run: seq<Inputs>): (s: State)
    requires forall i :: 0 <= i < |run| ==> Usable(desc, run[i])
    ensures IndexInRange(s)
  {
    if run == [] then Initial() else StepState(desc, After(desc, run[..|run| - 1]), run[|run| - 1])
  }

  lemma {:induction false} RunInv(desc: Description, run: seq<Inputs>)
    requires |desc.joints| <= JOINT_MAX && forall i :: 0 <= i < |run| ==> Usable(desc, run[i])
    ensures Inv(desc, After(desc, run))
  {
    if run == [] {
      InitialInv(desc);
    } else {
      RunInv(desc, run[..|run| - 1]);
      StepInv(desc, After(desc, run[..|run| - 1]), run[|run| - 1]);
    }
  }

  /** In every run, whatever instructions arrive: consecutive commands of a claimed joint are at most one tick at its
      speed limit apart, and so is the first command from where the joint was when the trajectory was loaded; what is
      loaded has passed the check, and the playback index stays inside it; and a player that has quit holds no
      trajectory. */
  lemma {:induction false} EveryRunIsSafe(desc: Description, run: seq<Inputs>)
    requires |desc.joints| <= JOINT_MAX && forall i :: 0 <= i < |run| ==> Usable(desc, run[i])
    ensures var s := After(desc, run);
      && SessionSafe(desc, s)
      && (s.elements != [] ==>
        && 0 <= s.index < |s.elements|
        && ChecksInBounds(desc, s.params, |s.elements|) && WithinLimits(desc, s.params, s.elements, false))
      && (s.current == Quit ==> s.elements == [])
  {
    RunInv(desc, run);
  }

  /** Steps that only follow one instruction. */
  function PlayMany(s: State, instruction: Instruction, n: nat): (t: State)
    requires s.elements != [] && !s.newTrajectory && IndexInRange(s)
    ensures t.elements == s.elements && !t.newTrajectory && IndexInRange(t)
  {
    if n == 0 then s.(current := instruction)
    else Play(PlayMany(s, instruction, n - 1).(current := instruction))
  }

  function Backwards(elements: seq<Element>): seq<Element> {
    if elements == [] then [] else Backwards(elements[1..]) + [elements[0]]
  }

  lemma {:induction false} RunningForward(s: State, n: nat)
    requires s.elements != [] && !s.newTrajectory && IndexInRange(s) && s.index + n < |s.elements|
    ensures PlayMany(s, Run, n).index == s.index + n
    ensures PlayMany(s, Run, n).sent == s.sent + s.elements[s.index + 1..s.index + n + 1]
  {
    hide Play;
    if 0 < n {
      RunningForward(s, n - 1);
      var before := PlayMany(s, Run, n - 1).(current := Run);
      PlayForward(before);
      var ran, next := s.elements[s.index + 1..s.index + n], s.elements[s.index + n];
      assert s.elements[s.index + 1..s.index + n + 1] == ran + [next];
      assert s.sent + ran + [next] == s.sent + (ran + [next]);
    }
  }

  lemma PlayForward(s: State)
    requires s.elements != [] && !s.newTrajectory && 0 <= s.index && s.index + 1 < |s.elements| && s.current == Run
    ensures Play(s).index == s.index + 1 && Play(s).sent == s.sent + [s.elements[s.index + 1]]
  {}

  lemma {:induction false} RunningBackward(s: State, n: nat)
    requires s.elements != [] && !s.newTrajectory && IndexInRange(s) && n <= s.index
    ensures PlayMany(s, Reverse, n).index == s.index - n
    ensures PlayMany(s, Reverse, n).sent == s.sent + Backwards(s.elements[s.index - n..s.index])
  {
    hide Play;
    if 0 < n {
      RunningBackward(s, n - 1);
      var before := PlayMany(s, Reverse, n - 1).(current := Reverse);
      PlayBackward(before);
      var segment := s.elements[s.index - n..s.index];
      assert segment[1..] == s.elements[s.index - n + 1..s.index];
      assert s.sent + Backwards(segment[1..]) + [segment[0]] == s.sent + (Backwards(segment[1..]) + [segment[0]]);
    }
  }

  lemma PlayBackward(s: State)
    requires s.elements != [] && !s.newTrajectory && 0 < s.index < |s.elements| && s.current == Reverse
    ensures Play(s).index == s.index - 1 && Play(s).sent == s.sent + [s.elements[s.index - 1]]
  {}

  /** Reversing as many steps as were run goes back over the same elements, in the opposite order, to where the run
      started. */
  lemma ReverseRetraces(s: State, n: nat)
    requires s.elements != [] && !s.newTrajectory && IndexInRange(s) && s.index + n < |s.elements|
    ensures var there := PlayMany(s, Run, n); var back := PlayMany(there, Reverse, n);
      && back.index == s.index
      && back.sent == there.sent + Backwards(s.elements[s.index..s.index + n])
  {
    hide Play;
    RunningForward(s, n);
    RunningBackward(PlayMany(s, Run, n), n);
  }

  // ----- The class -----

  class Player {
    const desc: Description
    const trajectory: Trajectory
    var currentIndex: int
    var newTrajectory: bool
    var incoming: Instruction
    var current: Instruction
    var start: seq<real>
    var mode: Interp
    /** Elements put on the command channel since the trajectory was loaded. */
    var sent: seq<Element>

    function View(): State
      reads this, trajectory
    {
      State(trajectory.params, trajectory.elements, currentIndex, newTrajectory, incoming, current, start, mode, sent)
    }

    predicate Valid()
      reads this, trajectory
    {
      trajectory.desc == desc && Inv(desc, View())
    }

    constructor (desc: Description)
      requires |desc.joints| <= JOINT_MAX
      ensures Valid() && View() == Initial() && this.desc == desc && fresh(trajectory)
    {
      this.desc := desc;
      trajectory := new Trajectory(desc);
      currentIndex, newTrajectory, incoming, current := 0, false, Quit, Quit;
      start, mode, sent := [], Raw, [];
      new;
      InitialInv(desc);
    }

    /** Loads, checks and claims the received trajectory; a failure leaves the trajectory in whatever state the failing
        test found it. */
    method ReceiveIncomingTrajectory(inputs: Inputs) returns (okay: bool)
      requires trajectory.desc == desc && Usable(desc, inputs)
      modifies this, trajectory
      ensures trajectory.desc == desc
      ensures okay <==> Accepted(desc, inputs).Done?
      ensures okay ==> View() == Loaded(desc, old(View()), inputs)
      ensures !okay ==> View() == old(View()).(params := trajectory.params, elements := trajectory.elements)
    {
      hide WithinLimits, Splined, Saturation.Saturated, Inv;
      trajectory.Clear();
      if inputs.received.None? {
        return false;
      }
      trajectory.params, trajectory.elements := inputs.received.value.0, inputs.received.value.1;
      var invalid := FindInvalidJoint(inputs.references);
      if invalid {
        return false;
      }
      okay := trajectory.Interpolate(inputs.optimal);
      if !okay {
        return false;
      }
      okay := trajectory.CheckLimits(false);
      if okay {
        currentIndex, newTrajectory := 0, true;
        start, mode, sent := inputs.references, inputs.received.value.0.interp, [];
      }
    }

    /** Some commanded joint would not start where it is. */
    method FindInvalidJoint(references: seq<real>) returns (invalid: bool)
      requires |references| == |desc.joints| <= JOINT_MAX
      requires trajectory.elements == [] ==>
        forall j :: 0 <= j < |desc.joints| ==> !Commands(desc, trajectory.params, j)
      ensures invalid <==> !StartsHere(desc, trajectory.params, trajectory.elements, references)
    {
      invalid := false;
      var params, elements := trajectory.params, trajectory.elements;
      var i := 0;
      while i < |desc.joints|
        invariant 0 <= i <= |desc.joints|
        invariant invalid <==>
          exists j :: 0 <= j < i && Commands(desc, params, j) && elements[0].references[j] != references[j]
      {
        if params.bitmap[i] {
          assert Commands(desc, params, i);
          if elements[0].references[i] != references[i] {
            invalid := true;
          }
        }
        i := i + 1;
      }
    }

    method Step(inputs: Inputs) returns (okay: bool)
      requires Valid() && Usable(desc, inputs)
      modifies this, trajectory
      ensures Valid() && View() == StepState(desc, old(View()), inputs)
      ensures okay <==> inputs.updated
    {
      hide React, Inv;
      StepInv(desc, View(), inputs);
      InvIsInRange(desc, View());
      if !inputs.updated {
        return false;
      }
      if !inputs.timePassed {
        return true;
      }
      var newInstruction := inputs.instruction.Some?;
      if newInstruction {
        incoming := inputs.instruction.value;
      }
      Follow(newInstruction, inputs);
      return true;
    }

    /** The rest of a step, once the incoming instruction is known. */
    method Follow(newInstruction: bool, inputs: Inputs)
      requires trajectory.desc == desc && Usable(desc, inputs) && IndexInRange(View())
      modifies this, trajectory
      ensures trajectory.desc == desc && View() == React(desc, old(View()), newInstruction, inputs)
    {
      hide Accepted;
      if incoming == Load || incoming == LoadAndGo {
        if newInstruction {
          var received := ReceiveIncomingTrajectory(inputs);
          if received {
            if incoming == LoadAndGo {
              current, incoming := Run, Run;
            } else {
              current, incoming := Pause, Pause;
            }
          } else {
            ClearTrajectory();
            current, incoming := Quit, Quit;
          }
        }
      } else if incoming == Quit && current != Quit {
        ClearTrajectory();
        current := incoming;
      } else if current == Quit {
        if incoming != Quit {
          var received := ReceiveIncomingTrajectory(inputs);
          if received {
            current := incoming;
          } else {
            ClearTrajectory();
          }
        }
      } else {
        current := incoming;
        if |trajectory.elements| != 0 {
          MovePlayback();
          sent := sent + [trajectory.elements[currentIndex]];
        }
      }
    }

    method ClearTrajectory()
      modifies this`sent, trajectory
      ensures View() == Cleared(old(View())) && trajectory.desc == old(trajectory.desc)
    {
      trajectory.Clear();
      sent := [];
    }

    /** Starts a new trajectory at its first element, then moves as instructed. */
    method MovePlayback()
      requires trajectory.elements != [] && (newTrajectory || IndexInRange(View()))
      modifies this`currentIndex, this`newTrajectory
      ensures !newTrajectory
      ensures currentIndex == Moved(current, if old(newTrajectory) then 0 else old(currentIndex), |trajectory.elements|)
      ensures 0 <= currentIndex < |trajectory.elements|
    {
      if newTrajectory {
        currentIndex, newTrajectory := 0, false;
      }
      if current == Run {
        currentIndex := currentIndex + 1;
        if currentIndex >= |trajectory.elements| {
          currentIndex := |trajectory.elements| - 1;
        }
      } else if current == Reverse {
        currentIndex := currentIndex - 1;
        if currentIndex < 0 {
          currentIndex := 0;
        }
      }
    }
  }

  lemma InvIsInRange(desc: Description, s: State)
    requires Inv(desc, s)
    ensures IndexInRange(s)
  {}
}
