/** The aggregator (HuboCmd/src/Aggregator.cpp): collects the commands of many processes and decides who owns a joint.
    */
module CommandAggregation {
  import opened PathTypes
  import opened CommandBuffer

  // ----- One joint -----

  /** What the aggregator keeps about one joint: its owner's process id, 0 for none, and its output. */
  datatype JointState = JointState(owner: nat, isSet: bool, record: Record)

  /** What a message says about one joint. */
  datatype Order = NoOrder | Order(record: Record)

  /** The record passed on: claiming and releasing are between the sender and the aggregator. */
  function PassedOn(record: Record): Record {
    if ModeOf(record) == CLAIM || ModeOf(record) == RELEASE then WithMode(record, IGNORE) else record
  }

  /** The sender may command the joint: it is free, or the sender's own, or the sender claims it. */
  predicate MayCommand(owner: nat, pid: nat, record: Record) {
    owner == 0 || owner == pid || ModeOf(record) == CLAIM
  }

  /** The owner after an accepted order. A release only frees a joint that was owned. */
  function OwnerAfter(owner: nat, pid: nat, record: Record): nat {
    if owner == pid && owner != 0 && ModeOf(record) == RELEASE then 0 else pid
  }

  function Obey(joint: JointState, pid: nat, order: Order): JointState {
    if order.Order? && MayCommand(joint.owner, pid, order.record) then
      JointState(OwnerAfter(joint.owner, pid, order.record), true, PassedOn(order.record))
    else joint
  }

  // ----- The whole table -----

  datatype State = State(owners: seq<nat>, output: View) {

    /** The output buffer has one record per joint of the robot. */
    predicate Valid() {
      && output.Valid()
      && |owners| == output.total
      && output.isCompressed == 0
      && |output.body| == output.total * RECORD_SIZE
    }

    function Joint(j: nat): JointState
      requires Valid() && j < |owners|
    {
      JointState(owners[j], output.bitmap[j], output.RecordAt(j))
    }
  }

  /** A message whose compression flag is one the program writes. */
  predicate Wellformed(message: View) {
    message.Valid() && message.isCompressed <= 1
  }

  function OrderFor(message: View, j: nat): Order
    requires Wellformed(message)
  {
    if message.IsSet(j) then Order(message.Get(j).value) else NoOrder
  }

  /** A message that can be collated: the aggregator sets the bit of each joint it accepts by a shift. */
  predicate Collatable(message: View) {
    Wellformed(message) && forall j :: 0 <= j < JOINT_MAX && message.IsSet(j) ==> Shiftable(j)
  }

  /** _resolve_ownership: the owners afterwards, and whether the command is accepted. */
  function Resolve(s: State, message: View, j: nat): (seq<nat>, bool)
    requires s.Valid() && Collatable(message) && message.IsSet(j)
  {
    if |s.owners| <= j then (s.owners, false)
    else if s.owners[j] == 0 then (s.owners[j := message.pid], true)
    else
      var record := message.Get(j).value;
      if s.owners[j] == message.pid then
        if ModeOf(record) == RELEASE then (s.owners[j := 0], true) else (s.owners, true)
      else if ModeOf(record) == CLAIM then (s.owners[j := message.pid], true)
      else (s.owners, false)
  }

  function CollateJoint(s: State, message: View, j: nat): (s': State)
    requires s.Valid() && Collatable(message)
    ensures s'.Valid() && |s'.owners| == |s.owners|
  {
    if !message.IsSet(j) then s
    else
      var (owners, accepted) := Resolve(s, message, j);
      if accepted then State(owners, Written(s.output, j, PassedOn(message.Get(j).value))) else s.(owners := owners)
  }

  /** _collate_input, joint by joint. */
  function CollateBelow(s: State, message: View, k: nat): (s': State)
    requires s.Valid() && Collatable(message)
    ensures s'.Valid() && |s'.owners| == |s.owners|
  {
    if k == 0 then s else CollateJoint(CollateBelow(s, message, k - 1), message, k - 1)
  }

  function Collate(s: State, message: View): (s': State)
    requires s.Valid() && Collatable(message)
    ensures s'.Valid() && |s'.owners| == |s.owners|
  {
    CollateBelow(s, message, message.total)
  }

  lemma CollateJointMeans(s: State, message: View, j: nat, i: nat)
    requires s.Valid() && Collatable(message) && i < |s.owners|
    ensures CollateJoint(s, message, j).Joint(i)
         == if i == j then Obey(s.Joint(i), message.pid, OrderFor(message, j)) else s.Joint(i)
  {
    hide ModeOf, View.RecordAt;
    if message.IsSet(j) && j < |s.owners| {
      WrittenRecord(s.output, j, PassedOn(message.Get(j).value), i);
    }
  }

  /** Collating treats every joint by itself. */
  lemma {:induction false} CollateBelowMeans(s: State, message: View, k: nat, i: nat)
    requires s.Valid() && Collatable(message) && i < |s.owners|
    ensures CollateBelow(s, message, k).Joint(i)
         == if i < k then Obey(s.Joint(i), message.pid, OrderFor(message, i)) else s.Joint(i)
  {
    if 0 < k {
      CollateBelowMeans(s, message, k - 1, i);
      CollateJointMeans(CollateBelow(s, message, k - 1), message, k - 1, i);
    }
  }

  lemma CollateMeans(s: State, message: View, i: nat)
    requires s.Valid() && Collatable(message) && i < |s.owners|
    ensures Collate(s, message).Joint(i) == Obey(s.Joint(i), message.pid, OrderFor(message, i))
  {
    CollateBelowMeans(s, message, message.total, i);
  }

  /** What collating never touches. */
  predicate SameFrame(s: State, t: State) {
    && s.Valid() && t.Valid() && |s.owners| == |t.owners|
    && t.output == s.output.(bitmap := t.output.bitmap, body := t.output.body)
    && t.output.bitmap[|s.owners|..] == s.output.bitmap[|s.owners|..]
  }

  lemma CollateJointKeepsFrame(s: State, message: View, j: nat)
    requires s.Valid() && Collatable(message)
    ensures SameFrame(s, CollateJoint(s, message, j))
  {}

  lemma {:induction false} CollateKeepsFrame(s: State, message: View, k: nat)
    requires s.Valid() && Collatable(message)
    ensures SameFrame(s, CollateBelow(s, message, k))
  {
    hide CollateJoint;
    if 0 < k {
      CollateKeepsFrame(s, message, k - 1);
      CollateJointKeepsFrame(CollateBelow(s, message, k - 1), message, k - 1);
    }
  }

  /** The joints and the frame determine the state. */
  lemma SameJoints(s: State, t: State)
    requires SameFrame(s, t)
    requires forall i :: 0 <= i < |s.owners| ==> s.Joint(i) == t.Joint(i)
    ensures s == t
  {
    assert s.owners == t.owners by {
      forall i | 0 <= i < |s.owners|
        ensures s.owners[i] == t.owners[i]
      {
        assert s.Joint(i).owner == t.Joint(i).owner;
      }
    }
    forall i | 0 <= i < JOINT_MAX
      ensures s.output.bitmap[i] == t.output.bitmap[i]
    {
      if i < |s.owners| {
        assert s.Joint(i).isSet == t.Joint(i).isSet;
      } else {
        assert s.output.bitmap[|s.owners|..][i - |s.owners|] == t.output.bitmap[|s.owners|..][i - |s.owners|];
      }
    }
    forall i | 0 <= i < |s.output.body|
      ensures s.output.body[i] == t.output.body[i]
    {
      var j := i / RECORD_SIZE;
      assert s.Joint(j).record[i % RECORD_SIZE] == t.Joint(j).record[i % RECORD_SIZE];
    }
  }

  // ----- Compression is invisible -----

  lemma SameOrders(destination: View, source: View, j: nat)
    requires Compresses(destination, source)
    ensures Wellformed(Compressed(destination, source).0)
    ensures OrderFor(Compressed(destination, source).0, j) == OrderFor(source, j)
  {
    CompressionRoundTrip(destination, source, j);
  }

  /** Whatever the owners and the output, collating the compressed form of a buffer has the effect of collating the
      buffer itself. */
  lemma CompressionIsInvisible(s: State, destination: View, source: View)
    requires s.Valid() && Compresses(destination, source) && Collatable(source)
    ensures Collatable(Compressed(destination, source).0)
    ensures Collate(s, Compressed(destination, source).0) == Collate(s, source)
  {
    hide Compressed, Collate;
    var packed := Compressed(destination, source).0;
    SameOrders(destination, source, 0);
    SameBits(destination, source);
    forall i | 0 <= i < |s.owners|
      ensures Collate(s, packed).Joint(i) == Collate(s, source).Joint(i)
    {
      SameOrders(destination, source, i);
      SamePid(destination, source);
      CollateMeans(s, packed, i);
      CollateMeans(s, source, i);
    }
    CollateFrames(s, packed);
    CollateFrames(s, source);
    SameJoints(Collate(s, packed), Collate(s, source));
  }

  lemma SameBits(destination: View, source: View)
    requires Compresses(destination, source) && Collatable(source)
    ensures Collatable(Compressed(destination, source).0)
  {
    SameOrders(destination, source, 0);
  }

  lemma SamePid(destination: View, source: View)
    requires Compresses(destination, source)
    ensures Compressed(destination, source).0.pid == source.pid
  {}

  lemma CollateFrames(s: State, message: View)
    requires s.Valid() && Collatable(message)
    ensures SameFrame(s, Collate(s, message))
  {
    CollateKeepsFrame(s, message, message.total);
  }

  // ----- Histories -----

  predicate AllCollatable(history: seq<View>) {
    forall m :: 0 <= m < |history| ==> Collatable(history[m])
  }

  function CollateAll(s: State, history: seq<View>): (s': State)
    requires s.Valid() && AllCollatable(history)
    ensures s'.Valid() && |s'.owners| == |s.owners|
  {
    if history == [] then s else Collate(CollateAll(s, history[..|history| - 1]), history[|history| - 1])
  }

  /** One joint's story, told by the orders for that joint alone. */
  function ObeyAll(joint: JointState, history: seq<View>, j: nat): JointState
    requires AllCollatable(history)
  {
    if history == [] then joint
    else
      var last := history[|history| - 1];
      Obey(ObeyAll(joint, history[..|history| - 1], j), last.pid, OrderFor(last, j))
  }

  /** Over any history the table is the per-joint fold of the orders for each joint. */
  lemma {:induction false} OwnershipIsPerJoint(s: State, history: seq<View>, j: nat)
    requires s.Valid() && AllCollatable(history) && j < |s.owners|
    ensures CollateAll(s, history).Joint(j) == ObeyAll(s.Joint(j), history, j)
  {
    if history != [] {
      OwnershipIsPerJoint(s, history[..|history| - 1], j);
      CollateMeans(CollateAll(s, history[..|history| - 1]), history[|history| - 1], j);
    }
  }

  /** Nobody but the owner speaks, and nobody claims: the message leaves joint j to its owner. */
  predicate RespectsOwner(message: View, owner: nat, j: nat)
    requires Collatable(message)
  {
    message.pid != owner && (OrderFor(message, j).Order? ==> ModeOf(OrderFor(message, j).record) != CLAIM)
  }

  /** A history of other processes that never claim changes neither the owner nor the output of an owned joint. */
  lemma {:induction false} OthersCannotInterfere(s: State, history: seq<View>, j: nat)
    requires s.Valid() && AllCollatable(history) && j < |s.owners| && s.owners[j] != 0
    requires forall m :: 0 <= m < |history| ==> RespectsOwner(history[m], s.owners[j], j)
    ensures CollateAll(s, history).Joint(j) == s.Joint(j)
  {
    if history != [] {
      OthersCannotInterfere(s, history[..|history| - 1], j);
      assert RespectsOwner(history[|history| - 1], s.owners[j], j);
      CollateMeans(CollateAll(s, history[..|history| - 1]), history[|history| - 1], j);
    }
  }

  /** The record asks for this mode, as the four bytes of a 32-bit integer. */
  predicate Asks(record: Record, mode: Byte) {
    record[..4] == [mode, 0, 0, 0]
  }

  lemma AsksIff(record: Record, mode: Byte)
    ensures Asks(record, mode) <==> ModeOf(record) == mode
  {
    assert record[..4] == [record[0], record[1], record[2], record[3]];
  }

  /** What a message does to a joint, in full: nothing unless it has a record for the joint and the joint is free, the
      sender's own, or claimed by the record. Otherwise the output gets the record byte for byte, except that a claim
      or a release is passed on as a record to ignore; and the joint belongs to the sender, unless it was the sender's
      and is released. */
  lemma CollatedJoint(s: State, message: View, j: nat)
    requires s.Valid() && Collatable(message) && j < |s.owners|
    ensures var before, after := s.Joint(j), Collate(s, message).Joint(j);
      if !message.IsSet(j) then after == before
      else
        var record := message.Get(j).value;
        var claims, releases := Asks(record, 4), Asks(record, 5);
        if before.owner != 0 && before.owner != message.pid && !claims then after == before
        else
          && after.isSet
          && after.record == (if claims || releases then [0, 0, 0, 0] + record[4..] else record)
          && after.owner == (if before.owner == message.pid && message.pid != 0 && releases then 0 else message.pid)
  {
    hide ModeOf;
    CollateMeans(s, message, j);
    if message.IsSet(j) {
      var record := message.Get(j).value;
      AsksIff(record, 4);
      AsksIff(record, 5);
      var passed := PassedOn(record);
      if Asks(record, 4) || Asks(record, 5) {
        AsksIff(passed, 0);
        assert passed == passed[..4] + passed[4..];
      }
    }
  }

  /** A process with a non-zero id can command a joint exactly when it is free, its own, or claimed by the order; the
      joint then belongs to it, unless it released a joint it owned. Releasing a free joint takes it. */
  lemma CommandTakesEffectIff(s: State, message: View, j: nat)
    requires s.Valid() && Collatable(message) && j < |s.owners| && message.pid != 0 && message.IsSet(j)
    ensures var record, before, after := message.Get(j).value, s.Joint(j), Collate(s, message).Joint(j);
      var may := before.owner == 0 || before.owner == message.pid || Asks(record, 4);
      var free := before.owner == message.pid && Asks(record, 5);
      && (may ==> after.isSet && after.record[4..] == record[4..])
      && (may ==> after.record[..4] == if Asks(record, 4) || Asks(record, 5) then [0, 0, 0, 0] else record[..4])
      && (!may ==> after == before)
      && (after.owner == message.pid <==> may && !free)
      && (after.owner == 0 <==> free)
  {
    hide ModeOf;
    CollatedJoint(s, message, j);
    AsksIff(message.Get(j).value, 4);
    AsksIff(message.Get(j).value, 5);
  }

  predicate NeverClaims(s: State)
    requires s.Valid()
  {
    forall j :: 0 <= j < |s.owners| ==> ModeOf(s.Joint(j).record) != CLAIM && ModeOf(s.Joint(j).record) != RELEASE
  }

  /** The output never carries a claim or a release. */
  lemma {:induction false} OutputNeverClaims(s: State, history: seq<View>)
    requires s.Valid() && AllCollatable(history) && NeverClaims(s)
    ensures NeverClaims(CollateAll(s, history))
  {
    if history != [] {
      OutputNeverClaims(s, history[..|history| - 1]);
      var before, last := CollateAll(s, history[..|history| - 1]), history[|history| - 1];
      forall j | 0 <= j < |s.owners|
        ensures ModeOf(CollateAll(s, history).Joint(j).record) != CLAIM
        ensures ModeOf(CollateAll(s, history).Joint(j).record) != RELEASE
      {
        assert ModeOf(before.Joint(j).record) != CLAIM && ModeOf(before.Joint(j).record) != RELEASE;
        CollateMeans(before, last, j);
      }
    }
  }

  predicate Disjoint(m1: View, m2: View)
    requires m1.Valid() && m2.Valid()
  {
    forall j :: 0 <= j < JOINT_MAX ==> !(m1.IsSet(j) && m2.IsSet(j))
  }

  /** Messages about different joints can arrive in either order. */
  lemma DisjointMessagesCommute(s: State, m1: View, m2: View)
    requires s.Valid() && Collatable(m1) && Collatable(m2) && Disjoint(m1, m2)
    ensures Collate(Collate(s, m1), m2) == Collate(Collate(s, m2), m1)
  {
    hide Collate;
    var left, right := Collate(Collate(s, m1), m2), Collate(Collate(s, m2), m1);
    forall i | 0 <= i < |s.owners|
      ensures left.Joint(i) == right.Joint(i)
    {
      CollateMeans(s, m1, i);
      CollateMeans(s, m2, i);
      CollateMeans(Collate(s, m1), m2, i);
      CollateMeans(Collate(s, m2), m1, i);
      assert !(m1.IsSet(i) && m2.IsSet(i));
    }
    CollateFrames(s, m1);
    CollateFrames(s, m2);
    CollateFrames(Collate(s, m1), m2);
    CollateFrames(Collate(s, m2), m1);
    SameJoints(left, right);
  }

  // ----- The class -----

  class Aggregator {
    var pids: seq<nat>
    const input: CommandData
    const output: CommandData
    const final: CommandData
    var aggregated: seq<Record>

    function Table(): State
      reads this, output, output.body
    {
      State(pids, output.Contents())
    }

    predicate Valid()
      reads this, input, input.body, output, output.body
    {
      && Table().Valid()
      && input != output && input.body != output.body
      && final != output && final.body != output.body
      && Wellformed(input.Contents())
    }

    /** Buffers for a robot with this many joints. */
    constructor (joints: nat)
      requires joints <= JOINT_MAX
      ensures Valid() && fresh(input) && fresh(input.body) && fresh(output) && fresh(output.body)
      ensures pids == Repeated(0, joints)
      ensures output.Contents() ==
        View(HEADER_CODE, 0, 0, joints, Repeated(false, JOINT_MAX), Repeated(0, joints * RECORD_SIZE))
    {
      input := new CommandData(joints, 0);
      output := new CommandData(joints, 0);
      final := new CommandData(joints, 0);
      pids := Repeated(0, joints);
      aggregated := Repeated(Repeated(0, RECORD_SIZE), joints);
    }

    method CollateInput()
      requires Valid() && Collatable(input.Contents())
      modifies this`pids, output`bitmap, output.body
      ensures Valid() && Table() == Collate(old(Table()), input.Contents())
    {
      hide CollateJoint;
      var i := 0;
      while i < input.total
        invariant 0 <= i <= input.total
        invariant Valid() && input.Contents() == old(input.Contents())
        invariant Table() == CollateBelow(old(Table()), input.Contents(), i)
      {
        CollateOne(i);
        i := i + 1;
      }
    }

    method CollateOne(i: nat)
      requires Valid() && Collatable(input.Contents())
      modifies this`pids, output`bitmap, output.body
      ensures Valid() && Table() == CollateJoint(old(Table()), input.Contents(), i)
    {
      var isSet := input.CheckIfJointIsSet(i);
      if isSet {
        var accepted := ResolveOwnership(i);
        if accepted {
          AcceptCommand(i);
        }
      }
    }

    method ResolveOwnership(j: nat) returns (accepted: bool)
      requires Valid() && Collatable(input.Contents()) && input.Contents().IsSet(j)
      modifies this`pids
      ensures Valid() && (pids, accepted) == Resolve(old(Table()), input.Contents(), j)
    {
      if |pids| <= j {
        return false;
      }
      if pids[j] == 0 {
        pids := pids[j := input.pid];
        return true;
      }
      var container := input.GetJointCmd(j);
      if pids[j] == input.pid {
        if ModeOf(container.value) == RELEASE {
          pids := pids[j := 0];
        }
        return true;
      } else if ModeOf(container.value) == CLAIM {
        pids := pids[j := input.pid];
        return true;
      }
      return false;
    }

    method AcceptCommand(j: nat)
      requires Valid() && Collatable(input.Contents()) && input.Contents().IsSet(j) && j < |pids|
      modifies output`bitmap, output.body
      ensures Valid()
      ensures output.Contents() == Written(old(output.Contents()), j, PassedOn(input.Contents().Get(j).value))
    {
      var container := input.GetJointCmd(j);
      var record := container.value;
      if ModeOf(record) == CLAIM || ModeOf(record) == RELEASE {
        record := WithMode(record, IGNORE);
      }
      var error := output.SetJointCmd(record, j);
    }

    /** Hands the broadcast output on to the control loop; a broadcast for another robot is ignored. */
    method CopyFinalDataToArray()
      requires final.Valid() && final.isCompressed == 0
      modifies this`aggregated
      ensures |old(aggregated)| != final.total ==> aggregated == old(aggregated)
      ensures |old(aggregated)| == final.total ==> |aggregated| == final.total
      ensures |old(aggregated)| == final.total ==>
        forall i :: 0 <= i < final.total ==> aggregated[i] == final.Contents().RecordAt(i)
    {
      if |aggregated| != final.total {
        return;
      }
      var i := 0;
      while i < |aggregated|
        invariant 0 <= i <= |aggregated| == final.total
        invariant forall k :: 0 <= k < i ==> aggregated[k] == final.Contents().RecordAt(k)
      {
        var container := final.GetJointCmd(i);
        aggregated := aggregated[i := container.value];
        i := i + 1;
      }
    }
  }
}
