/** The send and receive loops inside a run of both processes, and the sender that is not waited for
    (HuboPath/src/hubo_path.cpp). */
module TransferLoops {
  import opened NatArith
  import opened TrajectoryTransfer

  // ----- What each side reads in a run -----

  function SenderReads(task: Task, s: System, events: seq<Event>): seq<Get<Feedback>> {
    if events == [] then []
    else
      var prefix, e := events[..|events| - 1], events[|events| - 1];
      var before := After(task, s, prefix);
      SenderReads(task, s, prefix) + (if Enabled(before, e) then SenderRead(before, e) else [])
  }

  function SenderRead(before: System, e: Event): seq<Get<Feedback>>
    requires Enabled(before, e)
  {
    match e
    case SenderHandshakes(read) => [Fetch(before.acks, read)]
    case SenderJudges(read) => [Fetch(before.acks, read)]
    case _ => []
  }

  function ReceiverReads(task: Task, s: System, events: seq<Event>): seq<Get<Chunk>> {
    if events == [] then []
    else
      var prefix, e := events[..|events| - 1], events[|events| - 1];
      var before := After(task, s, prefix);
      ReceiverReads(task, s, prefix)
      + (if Enabled(before, e) && e.ReceiverReads? then [Fetch(before.chunks, e.read)] else [])
  }

  /** The chunks on the channel that a sender put there; the others are requests to cancel. */
  function Uncanceled(chunks: seq<Chunk>): seq<Chunk> {
    if chunks == [] then []
    else
      var last := chunks[|chunks| - 1];
      Uncanceled(chunks[..|chunks| - 1]) + (if last.chunkId == TX_CANCEL then [] else [last])
  }

  lemma {:induction false} UncanceledMore(chunks: seq<Chunk>, more: seq<Chunk>)
    requires |more| <= 1
    ensures Uncanceled(chunks + more) == Uncanceled(chunks) + Uncanceled(more)
  {
    if more == [] {
      assert chunks + more == chunks;
    } else {
      assert (chunks + more)[..|chunks|] == chunks && more[..0] == [];
      assert Uncanceled(more) == Uncanceled(more[..0]) + (if more[0].chunkId == TX_CANCEL then [] else [more[0]]);
    }
  }

  // ----- The run seen from either side -----

  /** The sender of a run, together with what it has put. */
  predicate SenderIsLoop(task: Task, t: System, gets: seq<Get<Feedback>>) {
    SenderAfter(task, gets) ==
      if t.sender.phase.Sending? then PutNextAfter(task, t.sender, Uncanceled(t.chunks.frames))
      else (t.sender, Uncanceled(t.chunks.frames))
  }

  /** In every run the sender's part is what its loop does with the answers its reads got: the run only puts a chunk
      later than it became due. */
  lemma {:induction false} SenderFollowsLoop(task: Task, s: System, events: seq<Event>)
    requires Initial(s)
    ensures SenderIsLoop(task, After(task, s, events), SenderReads(task, s, events))
  {
    hide Enabled, Next, SenderIsLoop;
    if events == [] {
      SenderStartsLoop(task, s);
    } else {
      var prefix, e := events[..|events| - 1], events[|events| - 1];
      var before, gets := After(task, s, prefix), SenderReads(task, s, prefix);
      SenderFollowsLoop(task, s, prefix);
      if Enabled(before, e) {
        SenderStepFollows(task, before, e, gets);
      } else {
        assert gets + [] == gets;
      }
    }
  }

  lemma SenderStartsLoop(task: Task, s: System)
    requires Initial(s)
    ensures SenderIsLoop(task, s, [])
  {}

  lemma SenderStepFollows(task: Task, before: System, e: Event, gets: seq<Get<Feedback>>)
    requires Enabled(before, e) && SenderIsLoop(task, before, gets)
    ensures SenderIsLoop(task, Next(task, before, e), gets + SenderRead(before, e))
  {
    hide ChunkOf, TotalChunks, Carried, Receive, Uncanceled;
    var frames := before.chunks.frames;
    match e
    case SenderHandshakes(read) =>
      var get := Fetch(before.acks, read);
      assert (gets + [get])[..|gets|] == gets;
    case SenderJudges(read) =>
      var get := Fetch(before.acks, read);
      assert (gets + [get])[..|gets|] == gets;
    case SenderPuts =>
      assert gets + [] == gets;
      PutIsUncanceled(task, before.sender);
      UncanceledMore(frames, PutNext(task, before.sender).1);
    case UserCancels(request) =>
      assert gets + [] == gets;
      CancelIsDropped(request);
      UncanceledMore(frames, [request]);
      assert Uncanceled(frames) + [] == Uncanceled(frames);
    case _ =>
      assert gets + [] == gets;
      assert Next(task, before, e).sender == before.sender && Next(task, before, e).chunks.frames == frames;
  }

  lemma PutIsUncanceled(task: Task, sender: Sender)
    requires sender.phase.Sending?
    ensures |PutNext(task, sender).1| <= 1 && Uncanceled(PutNext(task, sender).1) == PutNext(task, sender).1
  {
    var put := PutNext(task, sender).1;
    if put != [] { assert put[..0] == [] && Uncanceled(put[..0]) == []; }
  }

  lemma CancelIsDropped(request: Chunk)
    requires request.chunkId == TX_CANCEL
    ensures Uncanceled([request]) == []
  {
    assert [request][..0] == [];
  }

  /** The receiver of a run, together with what it has reported. */
  predicate ReceiverIsLoop(garbage: Chunk, t: System, gets: seq<Get<Chunk>>) {
    if t.receiver.phase.Announcing? then t.receiver == ReceiverStart(garbage) && t.acks.frames == [] && gets == []
    else (t.receiver, t.acks.frames) == ReceiverAfter(garbage, gets)
  }

  /** In every run the receiver's part, once it has announced itself, is what its loop does with the answers its reads
      got. */
  lemma {:induction false} ReceiverFollowsLoop(task: Task, s: System, events: seq<Event>)
    requires Initial(s)
    ensures ReceiverIsLoop(s.receiver.chunk, After(task, s, events), ReceiverReads(task, s, events))
  {
    hide Enabled, Next, ReceiverIsLoop;
    if events == [] {
      ReceiverStartsLoop(s);
    } else {
      var prefix, e := events[..|events| - 1], events[|events| - 1];
      var before, gets := After(task, s, prefix), ReceiverReads(task, s, prefix);
      ReceiverFollowsLoop(task, s, prefix);
      if Enabled(before, e) && e.ReceiverReads? {
        ReceiverReadFollows(s.receiver.chunk, task, before, e, gets);
      } else {
        assert gets + [] == gets;
        if Enabled(before, e) {
          OtherStepFollows(s.receiver.chunk, task, before, e, gets);
        }
      }
    }
  }

  lemma ReceiverStartsLoop(s: System)
    requires Initial(s)
    ensures ReceiverIsLoop(s.receiver.chunk, s, [])
  {}

  lemma ReceiverReadFollows(garbage: Chunk, task: Task, before: System, e: Event, gets: seq<Get<Chunk>>)
    requires e.ReceiverReads? && Enabled(before, e) && ReceiverIsLoop(garbage, before, gets)
    ensures ReceiverIsLoop(garbage, Next(task, before, e), gets + [Fetch(before.chunks, e.read)])
  {
    var get := Fetch(before.chunks, e.read);
    assert (gets + [get])[..|gets|] == gets;
    hide Receive;
  }

  lemma OtherStepFollows(garbage: Chunk, task: Task, before: System, e: Event, gets: seq<Get<Chunk>>)
    requires !e.ReceiverReads? && Enabled(before, e) && ReceiverIsLoop(garbage, before, gets)
    ensures ReceiverIsLoop(garbage, Next(task, before, e), gets)
  {
    hide Receive, PutNext, Handshake, Judge;
    if e.ReceiverAnnounces? {
      var (receiver, ack) := Announce(before.receiver);
      assert before.acks.frames + [ack] == [ack];
      assert ReceiverAfter(garbage, []) == (receiver, [ack]);
    }
  }

  /** The two loops are safe together: in every run, when the send loop reports success, the receive loop has returned
      success with the whole trajectory and its parameters; and what it has collected is always a whole-chunk prefix. */
  lemma {:induction false} LoopsAreSafe(task: Task, s: System, events: seq<Event>)
    requires Initial(s)
    ensures var sender := SenderAfter(task, SenderReads(task, s, events)).0;
      var receiver := ReceiverAfter(s.receiver.chunk, ReceiverReads(task, s, events)).0;
      && 0 <= receiver.chunkId + 1 <= TotalChunks(|task.elements|)
      && receiver.elements == Joined(task, receiver.chunkId + 1)
      && (sender.phase == SenderDone(Okay) ==> receiver.phase == ReceiverDone(Okay))
      && (receiver.phase == ReceiverDone(Okay) ==> receiver.elements == task.elements && receiver.params == task.params)
  {
    hide Joined, TotalChunks;
    var t := After(task, s, events);
    TransferIsSafe(task, s, events);
    SenderFollowsLoop(task, s, events);
    ReceiverFollowsLoop(task, s, events);
  }

  // ----- Sending without being waited for -----

  predicate IsReady(get: Get<Feedback>) {
    (get.Got? || get.Missed?) && get.frame.state == ReadReady
  }

  /** Reads after which the sender stops asking for readiness. */
  function Patience(task: Task): nat {
    if task.maxWaitTime < 0 then 1 else task.maxWaitTime + 1
  }

  /** No read failed or brought readiness. */
  predicate AllQuiet(gets: seq<Get<Feedback>>) {
    forall k :: 0 <= k < |gets| ==> !gets[k].Broken? && !IsReady(gets[k])
  }

  lemma {:induction false} QuietSenderWaits(task: Task, gets: seq<Get<Feedback>>)
    requires AllQuiet(gets) && |gets| < Patience(task)
    ensures var (sender, put) := SenderAfter(task, gets);
      && put == [] && sender.phase.Handshaking? && sender.feedback.state != ReadReady
      && sender.attempts == |gets| && sender.sent == 0
  {
    if gets != [] {
      var k := |gets| - 1;
      QuietSenderWaits(task, gets[..k]);
      assert !gets[k].Broken? && !IsReady(gets[k]);
    }
  }

  lemma PatienceRunsOut(task: Task, gets: seq<Get<Feedback>>)
    requires AllQuiet(gets) && |gets| == Patience(task)
    ensures SenderAfter(task, gets).1 == if task.elements == [] then [] else [ChunkOf(task, 0)]
    ensures task.elements == [] ==> SenderAfter(task, gets).0.phase.SenderDone?
  {
    hide ChunkOf;
    var k := |gets| - 1;
    QuietSenderWaits(task, gets[..k]);
    assert !gets[k].Broken? && !IsReady(gets[k]);
  }

  lemma {:induction false} PutsGrow(task: Task, gets: seq<Get<Feedback>>, k: nat)
    requires k <= |gets|
    ensures SenderAfter(task, gets[..k]).1 <= SenderAfter(task, gets).1
  {
    hide ChunkOf, Judge, Handshake;
    if k < |gets| {
      assert gets[..|gets| - 1][..k] == gets[..k];
      PutsGrow(task, gets[..|gets| - 1], k);
    } else {
      assert gets[..k] == gets;
    }
  }

  lemma FailureEndsWait(task: Task, gets: seq<Get<Feedback>>, k: nat)
    requires k < |gets| && k < Patience(task) && AllQuiet(gets[..k]) && gets[k].Broken?
    ensures SenderAfter(task, gets).1 == []
  {
    QuietSenderWaits(task, gets[..k]);
    assert gets[..k + 1][..k] == gets[..k];
    DoneStaysDone(task, gets, k + 1);
  }

  /** The sender puts a chunk although none of the reads it waited with brought readiness, exactly when there is
      something to send and it read as often as it has patience, without readiness and without a failed read. */
  lemma {:induction false} SendsUnreadyIff(task: Task, gets: seq<Get<Feedback>>)
    ensures var waited := gets[..MinNat(|gets|, Patience(task))];
      SenderAfter(task, gets).1 != [] && (forall k :: 0 <= k < |waited| ==> !IsReady(waited[k]))
      <==> task.elements != [] && |waited| == Patience(task) && AllQuiet(waited)
  {
    hide SenderAfter, AllQuiet, IsReady;
    var n := MinNat(|gets|, Patience(task));
    var waited := gets[..n];
    if AllQuiet(waited) {
      QuietIsUnready(waited);
      QuietSends(task, gets, n);
    } else if forall k :: 0 <= k < |waited| ==> !IsReady(waited[k]) {
      FailedSendsNothing(task, gets, n);
    }
  }

  lemma QuietIsUnready(gets: seq<Get<Feedback>>)
    requires AllQuiet(gets)
    ensures forall k :: 0 <= k < |gets| ==> !IsReady(gets[k])
  {}

  lemma QuietSends(task: Task, gets: seq<Get<Feedback>>, n: nat)
    requires n == MinNat(|gets|, Patience(task)) && AllQuiet(gets[..n])
    ensures SenderAfter(task, gets).1 != [] <==> task.elements != [] && n == Patience(task)
  {
    hide SenderAfter, AllQuiet, ChunkOf;
    if n < Patience(task) {
      assert gets[..n] == gets;
      QuietSenderWaits(task, gets);
    } else {
      PatienceRunsOut(task, gets[..n]);
      if task.elements == [] { DoneStaysDone(task, gets, n); } else { PutsGrow(task, gets, n); }
    }
  }

  lemma FailedSendsNothing(task: Task, gets: seq<Get<Feedback>>, n: nat)
    requires n <= |gets| && n <= Patience(task) && !AllQuiet(gets[..n])
    requires forall k :: 0 <= k < n ==> !IsReady(gets[..n][k])
    ensures SenderAfter(task, gets).1 == []
  {
    hide SenderAfter, AllQuiet, IsReady;
    assert forall k :: 0 <= k < n ==> gets[..n][k] == gets[k];
    var k := FirstFailure(gets, n);
    FailureEndsWait(task, gets, k);
  }

  lemma {:induction false} FirstFailure(gets: seq<Get<Feedback>>, n: nat) returns (k: nat)
    requires n <= |gets| && !AllQuiet(gets[..n]) && forall i :: 0 <= i < n ==> !IsReady(gets[i])
    ensures k < n && AllQuiet(gets[..k]) && gets[k].Broken?
  {
    if AllQuiet(gets[..n - 1]) {
      k := n - 1;
      assert forall i :: 0 <= i < n - 1 ==> gets[..n][i] == gets[..n - 1][i];
    } else {
      k := FirstFailure(gets, n - 1);
    }
  }

  /** One element to send, a waiting time of 0, and nobody there: the sender still sends it. */
  lemma SilenceStillSends(task: Task)
    requires |task.elements| == 1 && task.maxWaitTime == 0
    ensures SenderAfter(task, [Nothing]).1 == [ChunkOf(task, 0)]
  {
    PatienceRunsOut(task, [Nothing]);
  }
}
