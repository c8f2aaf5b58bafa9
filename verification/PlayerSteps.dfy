/** What steps of the player do, told from what they read (HuboPath/src/Player.cpp). */
module PlayerSteps {
  import opened NatArith
  import opened PathTypes
  import opened PathTrajectory
  import opened TrajectoryPlayer

  /** The player got its state and some time has passed. */
  predicate Acts(inputs: Inputs) {
    inputs.updated && inputs.timePassed
  }

  /** The instruction an acting player has to deal with: the new one, or else the one it had. */
  function Told(s: State, inputs: Inputs): Instruction {
    if inputs.instruction.Some? then inputs.instruction.value else s.incoming
  }

  predicate AllUsable(desc: Description, run: seq<Inputs>) {
    forall i :: 0 <= i < |run| ==> Usable(desc, run[i])
  }

  /** The state after some steps from s. */
  function Steps(desc: Description, s: State, run: seq<Inputs>): (t: State)
    requires AllUsable(desc, run) && IndexInRange(s)
    ensures IndexInRange(t)
  {
    if run == [] then s
    else
      assert AllUsable(desc, run[..|run| - 1]);
      StepState(desc, Steps(desc, s, run[..|run| - 1]), run[|run| - 1])
  }

  /** The number of steps that act. */
  function Ticks(run: seq<Inputs>): (n: nat)
    ensures n <= |run|
  {
    if run == [] then 0 else Ticks(run[..|run| - 1]) + (if Acts(run[|run| - 1]) then 1 else 0)
  }

  /** Whenever the player acts, it is told x. */
  predicate OnlyTold(s: State, run: seq<Inputs>, x: Instruction) {
    forall i :: 0 <= i < |run| && Acts(run[i]) ==> Told(s, run[i]) == x
  }

  predicate Playing(s: State) {
    s.elements != [] && IndexInRange(s) && s.current != Quit
  }

  predicate Moves(x: Instruction) {
    x == Run || x == Pause || x == Reverse
  }

  /** The element commanded by the n-th step under one instruction, counted from the element `from`. */
  function Position(x: Instruction, from: nat, n: nat, size: nat): (k: nat)
    requires from < size
    ensures k < size
  {
    if x == Run then MinNat(from + n, size - 1)
    else if x == Reverse then (if n < from then from - n else 0)
    else from
  }

  function From(s: State): nat
    requires s.elements != [] && IndexInRange(s)
  {
    if s.newTrajectory then 0 else s.index
  }

  /** The elements commanded by n steps under one instruction. */
  function Commanded(elements: seq<Element>, x: Instruction, from: nat, n: nat): (sent: seq<Element>)
    requires from < |elements|
    ensures |sent| == n
    ensures forall k :: 0 <= k < n ==> sent[k] == elements[Position(x, from, k + 1, |elements|)]
  {
    seq(n, k requires 0 <= k < n => elements[Position(x, from, k + 1, |elements|)])
  }

  /** A step in which the player does not act changes nothing, and neither does a load that is not a new instruction. */
  lemma IdleStep(desc: Description, s: State, inputs: Inputs)
    requires Usable(desc, inputs) && IndexInRange(s)
    requires !Acts(inputs) || (inputs.instruction == None && (s.incoming == Load || s.incoming == LoadAndGo))
    ensures StepState(desc, s, inputs) == s
  {}

  lemma MovingStep(desc: Description, s: State, inputs: Inputs, x: Instruction)
    requires Usable(desc, inputs) && Playing(s) && Acts(inputs) && Moves(x) && Told(s, inputs) == x
    ensures var t := StepState(desc, s, inputs); var k := Position(x, From(s), 1, |s.elements|);
      t == s.(index := k, newTrajectory := false, incoming := x, current := x, sent := s.sent + [s.elements[k]])
  {}

  /** Playing, in closed form: as long as the player is told the same, n acting steps leave it n elements further on, n
      elements further back or where it was, but never beyond either end, and it has commanded every element on its
      way, the last one again and again once it is at an end. The other steps change nothing. */
  lemma {:induction false} PlaysInClosedForm(desc: Description, s: State, run: seq<Inputs>, x: Instruction)
    requires AllUsable(desc, run) && Playing(s) && Moves(x) && OnlyTold(s, run, x)
    ensures var t := Steps(desc, s, run); var n, size := Ticks(run), |s.elements|;
      t == if n == 0 then s
           else s.(index := Position(x, From(s), n, size), newTrajectory := false, incoming := x, current := x,
                   sent := s.sent + Commanded(s.elements, x, From(s), n))
  {
    hide StepState, Usable, Position, Commanded;
    if run != [] {
      var prefix, last := run[..|run| - 1], run[|run| - 1];
      PlaysInClosedForm(desc, s, prefix, x);
      var before, n := Steps(desc, s, prefix), Ticks(prefix);
      if Acts(last) {
        assert Told(s, last) == x;
        MovingStep(desc, before, last, x);
        OneMore(s.elements, x, From(s), n, s.sent);
      } else {
        IdleStep(desc, before, last);
      }
    }
  }

  lemma OneMore(elements: seq<Element>, x: Instruction, from: nat, n: nat, sent: seq<Element>)
    requires from < |elements| && Moves(x)
    ensures var size := |elements|; var last := Position(x, from, n + 1, size);
      && Position(x, Position(x, from, n, size), 1, size) == last
      && Position(x, from, 0, size) == from
      && sent + Commanded(elements, x, from, n + 1) == sent + Commanded(elements, x, from, n) + [elements[last]]
      && sent + Commanded(elements, x, from, 0) == sent
  {}

  /** A trajectory is accepted exactly when it was received, every joint it commands starts where it is, and what its
      interpolation makes of it passes the check; that is what is accepted. */
  lemma AcceptedIff(desc: Description, inputs: Inputs)
    requires Usable(desc, inputs)
    ensures Accepted(desc, inputs).Done? <==>
      && inputs.received.Some?
      && var (params, elements) := inputs.received.value;
      && (forall j :: 0 <= j < |desc.joints| && params.bitmap[j] ==>
        elements != [] && elements[0].references[j] == inputs.references[j])
      && var result := Interpolated(desc, params, elements, inputs.optimal);
      result.Done? && WithinLimits(desc, result.params, result.elements, false)
    ensures Accepted(desc, inputs).Done? ==>
      var (params, elements) := inputs.received.value;
      Accepted(desc, inputs) == Interpolated(desc, params, elements, inputs.optimal)
  {
    hide Interpolated, WithinLimits;
    if inputs.received.Some? {
      StartsHereMeans(desc, inputs.received.value.0, inputs.received.value.1, inputs.references);
    }
  }

  lemma StartsHereMeans(desc: Description, params: Params, elements: seq<Element>, references: seq<real>)
    requires |references| == |desc.joints| <= JOINT_MAX
    ensures StartsHere(desc, params, elements, references) <==>
      forall j :: 0 <= j < |desc.joints| && params.bitmap[j] ==>
        elements != [] && elements[0].references[j] == references[j]
  {
    assert forall j :: 0 <= j < |desc.joints| ==> (Commands(desc, params, j) <==> params.bitmap[j]);
  }

  /** Loading: a trajectory that is accepted replaces the old one, and the player then runs or pauses as it was told;
      one that is not leaves it without any trajectory, having quit. */
  lemma LoadStep(desc: Description, s: State, inputs: Inputs)
    requires Usable(desc, inputs) && IndexInRange(s) && Acts(inputs)
    requires inputs.instruction == Some(Load) || inputs.instruction == Some(LoadAndGo)
    ensures var t := StepState(desc, s, inputs); var accepted := Accepted(desc, inputs);
      if accepted.Done? then
        && t.params == accepted.params && t.elements == accepted.elements && t.newTrajectory && t.sent == []
        && t.current == t.incoming == (if inputs.instruction == Some(Load) then Pause else Run)
      else
        && t.params == ZeroParams() && t.elements == [] && t.sent == []
        && t.current == t.incoming == Quit
  {
    hide Accepted;
  }

  /** Quitting drops the trajectory. */
  lemma QuitStep(desc: Description, s: State, inputs: Inputs)
    requires Usable(desc, inputs) && IndexInRange(s) && Acts(inputs) && Told(s, inputs) == Quit
    ensures var t := StepState(desc, s, inputs);
      && t.current == t.incoming == Quit
      && (s.current != Quit ==> t.elements == [] && t.params == ZeroParams() && t.sent == [])
      && (s.current == Quit ==> t == s.(incoming := Quit))
  {}

  /** Once it has quit, the player loads before it does what it is told, and tries again until it can. */
  lemma BeginStep(desc: Description, s: State, inputs: Inputs)
    requires Usable(desc, inputs) && IndexInRange(s) && Acts(inputs) && Moves(Told(s, inputs)) && s.current == Quit
    ensures var t := StepState(desc, s, inputs); var accepted := Accepted(desc, inputs);
      && t.incoming == Told(s, inputs)
      && if accepted.Done? then
        && t.params == accepted.params && t.elements == accepted.elements && t.newTrajectory && t.sent == []
        && t.current == Told(s, inputs)
      else
        && t.params == ZeroParams() && t.elements == [] && t.sent == [] && t.current == Quit
  {
    hide Accepted;
  }

  /** From loading on: after a trajectory was loaded to be run, and nothing else said, n acting steps have commanded its
      elements from the second one to the last one, which is repeated; loaded only, its first element n times. */
  lemma LoadedThenPlayed(desc: Description, s: State, load: Inputs, rest: seq<Inputs>)
    requires Usable(desc, load) && IndexInRange(s) && Acts(load) && AllUsable(desc, rest)
    requires load.instruction == Some(Load) || load.instruction == Some(LoadAndGo)
    requires Accepted(desc, load).Done? && Accepted(desc, load).elements != []
    requires forall i :: 0 <= i < |rest| ==> rest[i].instruction == None
    ensures AllUsable(desc, [load] + rest)
    ensures var t := Steps(desc, s, [load] + rest); var elements := Accepted(desc, load).elements;
      && t.elements == elements && |t.sent| == Ticks(rest)
      && forall k :: 0 <= k < Ticks(rest) ==>
        t.sent[k] == elements[if load.instruction == Some(Load) then 0 else MinNat(k + 1, |elements| - 1)]
  {
    hide StepState, Usable, Accepted;
    var x := if load.instruction == Some(Load) then Pause else Run;
    LoadStep(desc, s, load);
    assert [load][..0] == [];
    var loaded := Steps(desc, s, [load]);
    assert loaded == StepState(desc, Steps(desc, s, []), load);
    PlaysInClosedForm(desc, loaded, rest, x);
    StepsInTurn(desc, s, [load], rest);
  }

  lemma {:induction false} StepsInTurn(desc: Description, s: State, first: seq<Inputs>, rest: seq<Inputs>)
    requires AllUsable(desc, first) && AllUsable(desc, rest) && IndexInRange(s)
    ensures AllUsable(desc, first + rest)
    ensures Steps(desc, s, first + rest) == Steps(desc, Steps(desc, s, first), rest)
  {
    hide StepState, Usable;
    if rest == [] {
      assert first + rest == first;
    } else {
      var prefix := rest[..|rest| - 1];
      StepsInTurn(desc, s, first, prefix);
      assert (first + rest)[..|first + rest| - 1] == first + prefix;
    }
  }
}
