/** A process that commands joints (HuboCmd/src/Commander.cpp). */
module JointCommanding {
  import opened PathTypes
  import opened CommandBuffer
  import opened CommandAggregation

  datatype ErrorResult = Okay | IndexOutOfBounds | IncompatibleJoint

  /** A command buffer that is not compressed. */
  predicate Commandable(view: View) {
    view.Valid() && view.HeaderOkay() && view.isCompressed == 0
  }

  /** Only joints whose bits can be set by a shift are commanded or released; the robot may have more. */
  predicate Reachable(view: View)
    requires Commandable(view)
  {
    forall j :: 0 <= j < view.total && (view.bitmap[j] || ModeOf(view.RecordAt(j)) == RELEASE) ==> Shiftable(j)
  }

  /** What is put on the command channel: the compressed form of a buffer, cut off at its size. */
  function Frame(source: View): (frame: View)
    requires Commandable(source)
    ensures Wellformed(frame) && frame.total == source.total && frame.pid == source.pid
  {
    source.(isCompressed := 1, body := Packed(source, source.total))
  }

  /** The buffer after one joint's mode is set and the joint registered. */
  function ModeSet(view: View, j: nat, mode: Byte): (after: View)
    requires Commandable(view) && j < view.total
    ensures Commandable(after)
  {
    Written(view, j, WithMode(view.RecordAt(j), mode))
  }

  lemma ModeSetIsReachable(view: View, j: nat, mode: Byte)
    requires Commandable(view) && Reachable(view) && j < view.total && Shiftable(j)
    ensures Reachable(ModeSet(view, j, mode))
  {
    var after := ModeSet(view, j, mode);
    forall i | 0 <= i < view.total
      ensures after.bitmap[i] || ModeOf(after.RecordAt(i)) == RELEASE ==> Shiftable(i)
    {
      ModeSetRecord(view, j, mode, i);
    }
  }

  lemma ModeSetRecord(view: View, j: nat, mode: Byte, i: nat)
    requires Commandable(view) && j < view.total && i < view.total
    ensures var after := ModeSet(view, j, mode);
      && after.total == view.total
      && after.bitmap == view.bitmap[j := true]
      && after.RecordAt(i) == if i == j then WithMode(view.RecordAt(j), mode) else view.RecordAt(i)
  {
    WrittenRecord(view, j, WithMode(view.RecordAt(j), mode), i);
  }

  class Commander {
    const cmdData: CommandData
    const compressed: CommandData
    /** Frames put on the command channel so far. */
    var channel: seq<View>
    var hasBeenUpdated: bool

    predicate Valid()
      reads this, cmdData, cmdData.body, compressed, compressed.body
    {
      && cmdData != compressed && cmdData.body != compressed.body
      && Commandable(cmdData.Contents()) && Reachable(cmdData.Contents())
      && Compresses(compressed.Contents(), cmdData.Contents())
    }

    constructor (joints: nat, pid: nat)
      requires joints <= JOINT_MAX
      ensures Valid() && channel == []
      ensures fresh(cmdData) && fresh(cmdData.body) && fresh(compressed) && fresh(compressed.body)
    {
      cmdData := new CommandData(joints, pid);
      compressed := new CommandData(joints, pid);
      channel, hasBeenUpdated := [], false;
    }

    /** Writes the mode through a pointer into the buffer, and registers the joint. */
    method SetMode(j: nat, mode: Byte) returns (result: ErrorResult)
      requires Valid() && (j < cmdData.total ==> Shiftable(j))
      modifies cmdData`bitmap, cmdData.body
      ensures Valid()
      ensures result == if j < cmdData.total then Okay else IndexOutOfBounds
      ensures cmdData.Contents() ==
        if result == Okay then ModeSet(old(cmdData.Contents()), j, mode) else old(cmdData.Contents())
    {
      if cmdData.total <= j {
        return IndexOutOfBounds;
      }
      hide Reachable;
      ModeSetIsReachable(cmdData.Contents(), j, mode);
      var record: Record := cmdData.body[j * RECORD_SIZE..(j + 1) * RECORD_SIZE];
      cmdData.WriteRecord(j, WithMode(record, mode));
      var error := cmdData.RegisterJoint(j);
      return Okay;
    }

    method ClaimJoint(j: nat) returns (result: ErrorResult)
      requires Valid() && (j < cmdData.total ==> Shiftable(j))
      modifies cmdData`bitmap, cmdData.body
      ensures Valid()
      ensures result == if j < cmdData.total then Okay else IndexOutOfBounds
      ensures cmdData.Contents() ==
        if result == Okay then ModeSet(old(cmdData.Contents()), j, CLAIM) else old(cmdData.Contents())
    {
      result := SetMode(j, CLAIM);
    }

    /** Only a joint that is set can be released. */
    method ReleaseJoint(j: nat) returns (result: ErrorResult)
      requires Valid()
      modifies cmdData`bitmap, cmdData.body
      ensures Valid() && cmdData.bitmap == old(cmdData.bitmap)
      ensures result == if old(cmdData.Contents()).IsSet(j) then Okay else IncompatibleJoint
      ensures cmdData.Contents() ==
        if result == Okay then ModeSet(old(cmdData.Contents()), j, RELEASE) else old(cmdData.Contents())
    {
      var isSet := cmdData.CheckIfJointIsSet(j);
      if isSet {
        result := SetMode(j, RELEASE);
      } else {
        return IncompatibleJoint;
      }
    }

    /** Marks every joint that is set as released. */
    method ReleaseJoints()
      requires Valid()
      modifies cmdData`bitmap, cmdData.body
      ensures Valid() && cmdData.bitmap == old(cmdData.bitmap)
      ensures forall j :: 0 <= j < cmdData.total ==>
        cmdData.Contents().RecordAt(j)
          == if cmdData.bitmap[j] then WithMode(old(cmdData.Contents()).RecordAt(j), RELEASE)
                                          else old(cmdData.Contents()).RecordAt(j)
    {
      ghost var before := cmdData.Contents();
      var i := 0;
      while i < cmdData.total
        invariant 0 <= i <= cmdData.total
        invariant Valid() && cmdData.bitmap == old(cmdData.bitmap) && |cmdData.Contents().body| == |before.body|
        invariant forall j :: 0 <= j < cmdData.total ==>
          cmdData.Contents().RecordAt(j) == if j < i && cmdData.bitmap[j] then WithMode(before.RecordAt(j), RELEASE)
                                            else before.RecordAt(j)
      {
        ghost var step := cmdData.Contents();
        var isSet := cmdData.CheckIfJointIsSet(i);
        if isSet {
          var result := ReleaseJoint(i);
          forall j | 0 <= j < cmdData.total
            ensures cmdData.Contents().RecordAt(j)
              == if j == i then WithMode(step.RecordAt(i), RELEASE) else step.RecordAt(j)
          {
            WrittenRecord(step, i, WithMode(step.RecordAt(i), RELEASE), j);
          }
        }
        i := i + 1;
      }
    }

    /** Compresses the commands, puts them on the channel, and forgets the joints that were released with them. */
    method SendCommands()
      requires Valid()
      modifies this`channel, this`hasBeenUpdated, cmdData`bitmap, cmdData.body, compressed, compressed.body
      ensures Valid()
      ensures !hasBeenUpdated
      ensures channel == old(channel) + [Frame(old(cmdData.Contents()))] && Collatable(channel[|channel| - 1])
      ensures UnregisteredBelow(old(cmdData.Contents()), cmdData.Contents(), cmdData.total)
    {
      hide Compressed, Frame, UnregisteredBelow, Commandable, Reachable, Collatable;
      ghost var destination, source := compressed.Contents(), cmdData.Contents();
      CutOffIsFrame(destination, source);
      var count := Compress(compressed, cmdData);
      var size := compressed.GetMinDataSize();
      channel := channel + [compressed.Contents().(body := compressed.body[..size - HEADER_SIZE])];
      ReachableMeans(source);
      FrameIsCollatable(source);
      var error := cmdData.UnregisterReleasedJoints();
      UnregisteredIsCommandable(source, cmdData.Contents());
      UnregisteredIsReachable(source, cmdData.Contents());
      hasBeenUpdated := false;
    }
  }

  lemma ReachableMeans(view: View)
    requires Commandable(view) && Reachable(view)
    ensures forall i :: 0 <= i < view.total && ModeOf(view.RecordAt(i)) == RELEASE ==> Shiftable(i)
  {}

  lemma UnregisteredIsReachable(before: View, after: View)
    requires Commandable(before) && Reachable(before) && UnregisteredBelow(before, after, before.total)
    requires Commandable(after)
    ensures Reachable(after)
  {
    hide Commandable;
    forall j | 0 <= j < after.total && (after.bitmap[j] || ModeOf(after.RecordAt(j)) == RELEASE)
      ensures Shiftable(j)
    {
      assert after.RecordAt(j) == Retired(before.RecordAt(j));
      assert after.bitmap[j] ==> before.bitmap[j];
    }
  }

  lemma UnregisteredIsCommandable(before: View, after: View)
    requires Commandable(before) && UnregisteredBelow(before, after, before.total)
    ensures Commandable(after) && after.total == before.total
  {}

  /** Cutting the compressed buffer off at its size leaves the frame, and the buffer can be compressed into again. */
  lemma CutOffIsFrame(destination: View, source: View)
    requires Compresses(destination, source) && Commandable(source)
    ensures var result := Compressed(destination, source).0;
      && result.Valid() && HEADER_SIZE <= result.MinSize() <= HEADER_SIZE + |result.body|
      && result.(body := result.body[..result.MinSize() - HEADER_SIZE]) == Frame(source)
      && result.HeaderOkay() && result.total == source.total && result.HoldsRecords(result.total)
  {
    CompressionRoundTrip(destination, source, 0);
  }

  // ----- What the commander and the aggregator do together -----

  /** A frame gives the orders the buffer holds. */
  lemma FrameGivesTheOrders(source: View, j: nat)
    requires Commandable(source)
    ensures OrderFor(Frame(source), j) == OrderFor(source, j)
  {
    if source.IsSet(j) {
      PackedAt(source, source.total, j);
      assert Frame(source).RecordAt(Rank(source.bitmap, j)) == source.RecordAt(j);
    }
  }

  /** After a send, the buffer orders what it ordered before, less the releases. */
  lemma ReleasesAreSentOnce(before: View, after: View, j: nat)
    requires Commandable(before) && UnregisteredBelow(before, after, before.total)
    ensures Commandable(after) && after.pid == before.pid
    ensures OrderFor(after, j) ==
      if OrderFor(before, j).Order? && ModeOf(OrderFor(before, j).record) == RELEASE then NoOrder
      else OrderFor(before, j)
    ensures j < before.total ==>
      var record := before.RecordAt(j);
      after.RecordAt(j) == if Asks(record, 5) then [0, 0, 0, 0] + record[4..] else record
  {
    if j < before.total {
      hide ModeOf;
      var record := before.RecordAt(j);
      AsksIff(record, 5);
      AsksIff(Retired(record), 0);
      assert Asks(record, 5) ==> Retired(record) == Retired(record)[..4] + Retired(record)[4..];
    }
  }

  lemma FrameIsCollatable(source: View)
    requires Commandable(source) && Reachable(source)
    ensures Collatable(Frame(source))
  {}

  /** A joint the commander owns and releases is free after the send, and stays free when the commander goes on sending:
      repeating the release would have taken the joint back. */
  lemma ReleasedStaysFree(s: State, before: View, after: View, j: nat)
    requires s.Valid() && Commandable(before) && Reachable(before) && UnregisteredBelow(before, after, before.total)
    requires j < |s.owners| && s.owners[j] == before.pid != 0
    requires before.IsSet(j) && ModeOf(before.RecordAt(j)) == RELEASE
    ensures Commandable(after) && Collatable(Frame(before)) && Collatable(Frame(after))
    ensures Collate(s, Frame(before)).owners[j] == 0
    ensures Collate(Collate(s, Frame(before)), Frame(after)).owners[j] == 0
    ensures Collate(Collate(s, Frame(before)), Frame(before)).owners[j] == before.pid
  {
    hide Collate, Frame, Reachable, Collatable;
    ReleasesAreSentOnce(before, after, j);
    UnregisteredIsReachable(before, after);
    FrameIsCollatable(before);
    FrameIsCollatable(after);
    var once := Collate(s, Frame(before));
    FrameGivesTheOrders(before, j);
    FrameGivesTheOrders(after, j);
    CollateMeans(s, Frame(before), j);
    CollateMeans(once, Frame(after), j);
    CollateMeans(once, Frame(before), j);
    assert once.Joint(j).owner == 0;
  }
}
