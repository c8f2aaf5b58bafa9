/** What is played is what was sent: the player at the receiving end of transfers (HuboPath/src/Player.cpp,
    HuboPath/src/hubo_path.cpp). */
module Playback {
  import opened PathTypes
  import opened PathTrajectory
  import opened TrajectoryPlayer
  import Protocol = TrajectoryTransfer
  import TransferLoops

  /** One transfer: the sender's task, and what happened on the channels, from their start. */
  datatype Transfer = Transfer(task: Protocol.Task, start: Protocol.System, events: seq<Protocol.Event>)

  /** What `receive_trajectory` has handed over by the end of the transfer, if it has returned success. */
  function Delivered(t: Transfer): Option<(Params, seq<Element>)> {
    var gets := TransferLoops.ReceiverReads(t.task, t.start, t.events);
    var receiver := Protocol.ReceiverAfter(t.start.receiver.chunk, gets).0;
    if receiver.phase == Protocol.ReceiverDone(Protocol.Okay) then Some((receiver.params, receiver.elements)) else None
  }

  /** Nothing is delivered but the whole trajectory with its parameters. */
  lemma DeliveredIsSent(t: Transfer)
    requires Protocol.Initial(t.start)
    ensures Delivered(t).Some? ==> Delivered(t).value == (t.task.params, t.task.elements)
  {
    hide Protocol.ReceiverAfter, TransferLoops.ReceiverReads;
    TransferLoops.LoopsAreSafe(t.task, t.start, t.events);
  }

  /** A run of the player, with the transfer behind each step. */
  predicate Fed(desc: Description, run: seq<Inputs>, transfers: seq<Transfer>) {
    && |transfers| == |run|
    && forall i :: 0 <= i < |run| ==>
      Usable(desc, run[i]) && Protocol.Initial(transfers[i].start) && run[i].received == Delivered(transfers[i])
  }

  /** What interpolating the trajectory sent at step i gives. */
  predicate PlaysFrom(desc: Description, s: State, inputs: Inputs, task: Protocol.Task) {
    && Interpolable(desc, task.params, task.elements)
    && Interpolated(desc, task.params, task.elements, inputs.optimal) == Done(s.params, s.elements)
  }

  /** Every element commanded since the load is one of the loaded trajectory's. */
  predicate CommandsLoaded(s: State) {
    forall k :: 0 <= k < |s.sent| ==> s.sent[k] in s.elements
  }

  /** The step reloads, or leaves the loaded trajectory alone. */
  lemma StepReloadsOrKeeps(desc: Description, s: State, inputs: Inputs)
    requires Usable(desc, inputs) && IndexInRange(s) && CommandsLoaded(s)
    ensures var t := StepState(desc, s, inputs);
      && CommandsLoaded(t)
      && (|| t.elements == []
          || (t.elements == s.elements && t.params == s.params)
          || (Accepted(desc, inputs).Done? && t.sent == []
              && Done(t.params, t.elements) == Accepted(desc, inputs)))
  {
    hide Accepted, React, Usable, CommandsLoaded;
    if inputs.updated && inputs.timePassed {
      if inputs.instruction.Some? {
        var told := s.(incoming := inputs.instruction.value);
        assert CommandsLoaded(told) by { SameCommands(s, told); }
        ReactReloadsOrKeeps(desc, told, true, inputs);
      } else {
        ReactReloadsOrKeeps(desc, s, false, inputs);
      }
    }
  }

  lemma SameCommands(s: State, t: State)
    requires CommandsLoaded(s) && t.sent == s.sent && t.elements == s.elements
    ensures CommandsLoaded(t)
  {}

  lemma ReactReloadsOrKeeps(desc: Description, s: State, isNew: bool, inputs: Inputs)
    requires Usable(desc, inputs) && IndexInRange(s) && CommandsLoaded(s)
    ensures var t := React(desc, s, isNew, inputs);
      && CommandsLoaded(t)
      && (|| t.elements == []
          || (t.elements == s.elements && t.params == s.params)
          || (Accepted(desc, inputs).Done? && t.sent == []
              && Done(t.params, t.elements) == Accepted(desc, inputs)))
  {
    hide Accepted, Usable, Play;
    if s.elements != [] && s.incoming != Quit && s.current != Quit {
      PlayCommandsLoaded(s.(current := s.incoming));
    }
  }

  lemma PlayCommandsLoaded(s: State)
    requires s.elements != [] && IndexInRange(s) && CommandsLoaded(s)
    ensures CommandsLoaded(Play(s)) && Play(s).elements == s.elements && Play(s).params == s.params
  {
    var t := Play(s);
    assert t.sent == s.sent + [s.elements[t.index]];
  }

  /** Whatever the instructions and whatever is lost, the trajectory loaded is what interpolating one of the sent
      trajectories gives, and every element commanded is one of its elements. */
  lemma {:induction false} PlayedWasSent(desc: Description, run: seq<Inputs>, transfers: seq<Transfer>)
    requires Fed(desc, run, transfers)
    ensures var s := After(desc, run);
      && CommandsLoaded(s)
      && (s.elements == [] || exists i :: 0 <= i < |run| && PlaysFrom(desc, s, run[i], transfers[i].task))
  {
    hide StepState, PlaysFrom, Usable, Delivered, Protocol.Initial;
    if run != [] {
      var k := |run| - 1;
      var before, s := After(desc, run[..k]), After(desc, run);
      PlayedWasSent(desc, run[..k], transfers[..k]);
      StepReloadsOrKeeps(desc, before, run[k]);
      if s.elements != [] && s.elements == before.elements && s.params == before.params {
        var i :| 0 <= i < k && PlaysFrom(desc, before, run[..k][i], transfers[..k][i].task);
        SamePlays(desc, before, s, run[i], transfers[i].task);
      } else if s.elements != [] {
        AcceptedPlays(desc, s, run[k], transfers[k]);
      }
    }
  }

  lemma SamePlays(desc: Description, s: State, t: State, inputs: Inputs, task: Protocol.Task)
    requires PlaysFrom(desc, s, inputs, task) && t.elements == s.elements && t.params == s.params
    ensures PlaysFrom(desc, t, inputs, task)
  {
    hide Interpolable, Interpolated;
  }

  lemma AcceptedPlays(desc: Description, s: State, inputs: Inputs, t: Transfer)
    requires Usable(desc, inputs) && Protocol.Initial(t.start) && inputs.received == Delivered(t)
    requires Accepted(desc, inputs) == Done(s.params, s.elements)
    ensures PlaysFrom(desc, s, inputs, t.task)
  {
    hide Delivered, Interpolable, Interpolated, WithinLimits, StartsHere;
    DeliveredIsSent(t);
  }
}
