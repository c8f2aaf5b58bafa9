/** How the send and receive loops end, told by what their reads yield (HuboPath/src/hubo_path.cpp). */
module TransferEndings {
  import opened NatArith
  import opened PathTypes
  import opened TrajectoryTransfer
  import opened TransferLoops

  // ----- The receiver -----

  /** Read k brings the next chunk in order, and it is not the last one. */
  predicate Continues(gets: seq<Get<Chunk>>, k: nat)
    requires k < |gets|
  {
    gets[k].Got? && gets[k].frame.chunkId == k && k < gets[k].frame.totalChunks - 1
  }

  /** The first read that does not let the receiver go on. */
  function FirstStop(gets: seq<Get<Chunk>>, from: nat): (k: nat)
    requires from <= |gets|
    ensures from <= k <= |gets|
    ensures forall i :: from <= i < k ==> Continues(gets, i)
    ensures k < |gets| ==> !Continues(gets, k)
    decreases |gets| - from
  {
    if from < |gets| && Continues(gets, from) then FirstStop(gets, from + 1) else from
  }

  /** The elements that the first k reads bring. */
  function Gathered(gets: seq<Get<Chunk>>, k: nat): seq<Element>
    requires k <= |gets| && forall i :: 0 <= i < k ==> Continues(gets, i)
  {
    if k == 0 then []
    else
      assert Continues(gets, k - 1);
      Gathered(gets, k - 1) + gets[k - 1].frame.elements
  }

  /** The last chunk that the first k reads bring; until there is one the variable holds what it held. */
  function Seen(garbage: Chunk, gets: seq<Get<Chunk>>, k: nat): Chunk
    requires k <= |gets|
  {
    if k == 0 then garbage
    else if gets[k - 1].Got? || gets[k - 1].Missed? then gets[k - 1].frame
    else Seen(garbage, gets, k - 1)
  }

  function ReportOn(state: RxState, chunk: Chunk): Feedback {
    Feedback(state, chunk.chunkId, chunk.totalChunks)
  }

  /** Each chunk in order is acknowledged. */
  predicate AllReported(gets: seq<Get<Chunk>>, k: nat, acks: seq<Feedback>)
    requires k <= |gets| && forall i :: 0 <= i < k ==> Continues(gets, i)
  {
    && k < |acks| && acks[0] == Feedback(ReadReady, 0, 0)
    && forall i :: 0 <= i < k ==> Continues(gets, i) && acks[i + 1] == ReportOn(Listening, gets[i].frame)
  }

  lemma {:induction false} GoingOn(garbage: Chunk, gets: seq<Get<Chunk>>, k: nat)
    requires k <= |gets| && forall i :: 0 <= i < k ==> Continues(gets, i)
    ensures var (r, acks) := ReceiverAfter(garbage, gets[..k]);
      && r.phase == Receiving && r.chunkId == k - 1 && r.chunk == Seen(garbage, gets, k)
      && r.elements == Gathered(gets, k) && r.state == (if k == 0 then ReadReady else Listening)
      && |acks| == k + 1 && AllReported(gets, k, acks)
  {
    if 0 < k {
      GoingOn(garbage, gets, k - 1);
      assert gets[..k][..k - 1] == gets[..k - 1] && gets[..k][k - 1] == gets[k - 1];
      assert Continues(gets, k - 1);
    }
  }

  /** What the first read that does not let the receiver go on, in the place of chunk k, makes it report. */
  function StopState(get: Get<Chunk>, k: nat): RxState {
    match get
    case Nothing => RxTimeout
    case Broken => RxAchError
    case Missed(_) => RxAchError
    case Got(chunk) =>
      if chunk.chunkId == TX_CANCEL then Canceled
      else if chunk.chunkId != k then Discontinuity
      else if k == chunk.totalChunks - 1 then Finished
      else if k == 0 then ReadReady
      else Listening
  }

  /** And what it returns. */
  function StopResult(get: Get<Chunk>, k: nat): Result {
    match get
    case Nothing => TimedOut
    case Broken => AchError
    case Missed(_) => AchError
    case Got(chunk) =>
      if chunk.chunkId == TX_CANCEL then Interrupted else if chunk.chunkId != k then SynchError else Okay
  }

  lemma StopsWith(garbage: Chunk, gets: seq<Get<Chunk>>, k: nat)
    requires k < |gets| && (forall i :: 0 <= i < k ==> Continues(gets, i)) && !Continues(gets, k)
    ensures var (r, acks) := ReceiverAfter(garbage, gets); var get := gets[k];
      && |acks| == k + 2 && AllReported(gets, k, acks)
      && r.phase == ReceiverDone(StopResult(get, k))
      && acks[k + 1] == ReportOn(StopState(get, k), Seen(garbage, gets, k + 1))
      && (StopResult(get, k) == Okay ==>
        r.params == get.frame.params && r.elements == Gathered(gets, k) + get.frame.elements)
      && (StopResult(get, k) != Okay ==> r.elements == Gathered(gets, k))
  {
    GoingOn(garbage, gets, k);
    hide AllReported, Gathered;
    assert gets[..k + 1][..k] == gets[..k];
    ReportedStays(garbage, gets, k);
    ReceiverDoneStaysDone(garbage, gets, k + 1);
  }

  lemma ReportedStays(garbage: Chunk, gets: seq<Get<Chunk>>, k: nat)
    requires k < |gets| && (forall i :: 0 <= i < k ==> Continues(gets, i))
    requires var acks := ReceiverAfter(garbage, gets[..k]).1; |acks| == k + 1 && AllReported(gets, k, acks)
    ensures forall ack :: AllReported(gets, k, ReceiverAfter(garbage, gets[..k]).1 + [ack])
  {}

  /** How the receive loop ends, exactly: it goes on, acknowledging each chunk, while every read brings the next one in
      order; the first read that does not makes it time out, fail, obey the cancel or miss a chunk, and the last chunk
      makes it succeed with all it has gathered. */
  lemma ReceiverResultIff(garbage: Chunk, gets: seq<Get<Chunk>>)
    ensures var (r, acks) := ReceiverAfter(garbage, gets); var k := FirstStop(gets, 0); var stopped := k < |gets|;
      && AllReported(gets, k, acks)
      && (r.phase == Receiving <==> !stopped)
      && (r.phase == ReceiverDone(TimedOut) <==> stopped && gets[k].Nothing?)
      && (r.phase == ReceiverDone(AchError) <==> stopped && (gets[k].Broken? || gets[k].Missed?))
      && (r.phase == ReceiverDone(Interrupted) <==> stopped && gets[k].Got? && gets[k].frame.chunkId == TX_CANCEL)
      && (r.phase == ReceiverDone(SynchError) <==>
        stopped && gets[k].Got? && gets[k].frame.chunkId != TX_CANCEL && gets[k].frame.chunkId != k)
      && (r.phase == ReceiverDone(Okay) <==> stopped && gets[k].Got? && gets[k].frame.chunkId == k)
      && |acks| == (if stopped then k + 2 else k + 1)
      && (stopped ==> acks[k + 1] == ReportOn(StopState(gets[k], k), Seen(garbage, gets, k + 1)))
      && (r.phase == ReceiverDone(Okay) ==>
        r.params == gets[k].frame.params && r.elements == Gathered(gets, k) + gets[k].frame.elements)
      && (r.phase != ReceiverDone(Okay) ==> r.elements == Gathered(gets, k))
  {
    hide AllReported, Gathered, Seen, ReceiverAfter;
    var k := FirstStop(gets, 0);
    if k < |gets| {
      StopsWith(garbage, gets, k);
    } else {
      GoingOn(garbage, gets, k);
      assert gets[..k] == gets;
    }
  }

  // ----- The sender -----

  /** What the sender knows from the first k reads: the last report that any of them brought. */
  function LatestOf(gets: seq<Get<Feedback>>, k: nat): Feedback
    requires k <= |gets|
  {
    if k == 0 then Feedback(Ignoring, 0, 0)
    else if gets[k - 1].Got? || gets[k - 1].Missed? then gets[k - 1].frame
    else LatestOf(gets, k - 1)
  }

  /** The first h reads are those with which the sender waits for readiness. */
  predicate Shakes(task: Task, gets: seq<Get<Feedback>>, h: nat) {
    && 1 <= h <= |gets| && h <= Patience(task)
    && AllQuiet(gets[..h - 1]) && !gets[h - 1].Broken?
    && (IsReady(gets[h - 1]) || h == Patience(task))
  }

  /** The number of those reads, or 0 if the sender has not got that far. */
  function Shaken(task: Task, gets: seq<Get<Feedback>>, k: nat): (h: nat)
    requires k <= |gets| && k < Patience(task) && AllQuiet(gets[..k])
    ensures if h == 0
      then (k <= |gets| < Patience(task) && AllQuiet(gets)) || FailsAt(task, gets)
      else h <= |gets| && Shakes(task, gets, h)
    decreases |gets| - k
  {
    if k == |gets| then
      assert gets[..k] == gets;
      0
    else if gets[k].Broken? then
      assert FailsBy(task, gets, k);
      0
    else if IsReady(gets[k]) || k + 1 == Patience(task) then k + 1
    else Shaken(task, gets, k + 1)
  }

  predicate FailsBy(task: Task, gets: seq<Get<Feedback>>, k: nat) {
    k < |gets| && k < Patience(task) && AllQuiet(gets[..k]) && gets[k].Broken?
  }

  /** A read fails while the sender waits for readiness. */
  predicate FailsAt(task: Task, gets: seq<Get<Feedback>>) {
    exists k: nat :: k < |gets| && FailsBy(task, gets, k)
  }

  /** The read after chunk i leaves the sender with the report that the receiver took it and listens on. */
  predicate Acknowledged(gets: seq<Get<Feedback>>, h: nat, i: nat)
    requires h + i < |gets|
  {
    !gets[h + i].Nothing? && LatestOf(gets, h + i + 1).chunkId == i && LatestOf(gets, h + i + 1).state == Listening
  }

  /** How many chunks are acknowledged in a row. */
  function Acked(task: Task, gets: seq<Get<Feedback>>, h: nat, i: nat): (n: nat)
    requires h + i <= |gets| && i <= TotalChunks(|task.elements|)
    ensures i <= n <= TotalChunks(|task.elements|) && h + n <= |gets|
    ensures forall m :: i <= m < n ==> Acknowledged(gets, h, m)
    ensures h + n < |gets| && n < TotalChunks(|task.elements|) ==> !Acknowledged(gets, h, n)
    decreases |gets| - i
  {
    if i < TotalChunks(|task.elements|) && h + i < |gets| && Acknowledged(gets, h, i) then Acked(task, gets, h, i + 1)
    else i
  }

  /** Everything put once chunk k is in flight, or all of it. */
  function PutBy(task: Task, k: nat): seq<Chunk> {
    AllChunks(task)[..MinNat(k + 1, TotalChunks(|task.elements|))]
  }

  /** The sender when it has put chunk i, and waits for its acknowledgment, or has no chunk i to put. */
  predicate Talks(task: Task, gets: seq<Get<Feedback>>, k: nat, i: nat)
    requires k <= |gets|
  {
    var (sender, put) := SenderAfter(task, gets[..k]); var total := TotalChunks(|task.elements|);
    && put == PutBy(task, i)
    && (if i < total then sender.phase == Awaiting && sender.sent == i + 1 && sender.feedback == LatestOf(gets, k)
        else sender.phase == SenderDone(UndefinedError))
  }

  lemma {:induction false} QuietFeedback(task: Task, gets: seq<Get<Feedback>>, k: nat)
    requires k <= |gets| && k < Patience(task) && AllQuiet(gets[..k])
    ensures var (sender, put) := SenderAfter(task, gets[..k]);
      && put == [] && sender.phase.Handshaking? && sender.attempts == k && sender.sent == 0 && sender.counter == 0
      && sender.feedback == LatestOf(gets, k) && sender.feedback.state != ReadReady
  {
    if 0 < k {
      assert gets[..k][..k - 1] == gets[..k - 1];
      assert forall i :: 0 <= i < k ==> gets[..k][i] == gets[i];
      QuietFeedback(task, gets, k - 1);
      assert !gets[k - 1].Broken? && !IsReady(gets[k - 1]);
    }
  }

  lemma ShakesTalks(task: Task, gets: seq<Get<Feedback>>, h: nat)
    requires Shakes(task, gets, h)
    ensures Talks(task, gets, h, 0)
  {
    QuietFeedback(task, gets, h - 1);
    assert gets[..h][..h - 1] == gets[..h - 1];
  }

  lemma TalksOn(task: Task, gets: seq<Get<Feedback>>, h: nat, i: nat)
    requires h + i < |gets| && i < TotalChunks(|task.elements|)
    requires Talks(task, gets, h + i, i) && Acknowledged(gets, h, i)
    ensures Talks(task, gets, h + i + 1, i + 1)
  {
    hide ChunkOf, Carried, TotalChunks;
    var k := h + i;
    assert gets[..k + 1][..k] == gets[..k];
    assert i + 1 < TotalChunks(|task.elements|) ==> PutBy(task, i + 1) == PutBy(task, i) + [ChunkOf(task, i + 1)];
  }

  lemma {:induction false} AllTalk(task: Task, gets: seq<Get<Feedback>>, h: nat, i: nat)
    requires Shakes(task, gets, h) && h + i <= |gets| && i <= TotalChunks(|task.elements|)
    requires forall m :: 0 <= m < i ==> Acknowledged(gets, h, m)
    ensures Talks(task, gets, h + i, i)
  {
    hide Talks, Shakes, Acknowledged;
    if i == 0 {
      ShakesTalks(task, gets, h);
    } else {
      AllTalk(task, gets, h, i - 1);
      TalksOn(task, gets, h, i - 1);
    }
  }

  /** The sender's result, once it has waited with h reads and got i acknowledgments. */
  lemma SenderStops(task: Task, gets: seq<Get<Feedback>>, h: nat, i: nat)
    requires h + i < |gets| && i < TotalChunks(|task.elements|)
    requires Talks(task, gets, h + i, i) && !Acknowledged(gets, h, i)
    ensures var (sender, put) := SenderAfter(task, gets); var report := LatestOf(gets, h + i + 1);
      && put == PutBy(task, i)
      && sender.phase == SenderDone(
        if gets[h + i].Nothing? then TimedOut
        else if report.chunkId != i then SynchError
        else if report.state == Finished then (if i == TotalChunks(|task.elements|) - 1 then Okay else SynchError)
        else Interrupted)
  {
    hide ChunkOf, Carried, TotalChunks, PutBy;
    var k := h + i;
    assert gets[..k + 1][..k] == gets[..k];
    DoneStaysDone(task, gets, k + 1);
  }

  /** How the send loop ends, exactly. With h the reads it waits for readiness with, and i the chunks acknowledged in a
      row after that: it has failed if one of the waiting reads failed; otherwise the report after chunk i decides. */
  lemma SenderResultIff(task: Task, gets: seq<Get<Feedback>>)
    ensures var (sender, put) := SenderAfter(task, gets); var total := TotalChunks(|task.elements|);
      var h := if FailsAt(task, gets) then 0 else Shaken(task, gets, 0); var i := Acked(task, gets, h, 0);
      var judged := 0 < h && i < total && h + i < |gets|;
      var report := if judged then LatestOf(gets, h + i + 1) else ZeroFeedback();
      && (sender.phase == SenderDone(AchError) <==> FailsAt(task, gets))
      && (sender.phase == SenderDone(TimedOut) <==> judged && gets[h + i].Nothing?)
      && (sender.phase == SenderDone(SynchError) <==>
        judged && !gets[h + i].Nothing? && (report.chunkId != i || (report.state == Finished && i != total - 1)))
      && (sender.phase == SenderDone(Interrupted) <==>
        judged && !gets[h + i].Nothing? && report.chunkId == i && report.state != Finished)
      && (sender.phase == SenderDone(Okay) <==>
        judged && !gets[h + i].Nothing? && report.chunkId == i && report.state == Finished && i == total - 1)
      && (sender.phase == SenderDone(UndefinedError) <==> 0 < h && i == total)
      && put == (if h == 0 then [] else PutBy(task, i))
  {
    hide SenderAfter, Shakes, Acknowledged, PutBy, TotalChunks;
    if FailsAt(task, gets) {
      var k: nat :| k < |gets| && FailsBy(task, gets, k);
      FailsWith(task, gets, k);
    } else {
      var h := Shaken(task, gets, 0);
      if h == 0 {
        QuietSenderWaits(task, gets);
      } else {
        var i := Acked(task, gets, h, 0);
        AllTalk(task, gets, h, i);
        TalkedSender(task, gets, h, i);
      }
    }
  }

  lemma FailsWith(task: Task, gets: seq<Get<Feedback>>, k: nat)
    requires FailsBy(task, gets, k)
    ensures SenderAfter(task, gets).0.phase == SenderDone(AchError) && SenderAfter(task, gets).1 == []
  {
    QuietFeedback(task, gets, k);
    assert gets[..k + 1][..k] == gets[..k];
    DoneStaysDone(task, gets, k + 1);
  }

  lemma TalkedSender(task: Task, gets: seq<Get<Feedback>>, h: nat, i: nat)
    requires h + i <= |gets| && i <= TotalChunks(|task.elements|) && Talks(task, gets, h + i, i)
    requires h + i < |gets| && i < TotalChunks(|task.elements|) ==> !Acknowledged(gets, h, i)
    ensures var (sender, put) := SenderAfter(task, gets); var total := TotalChunks(|task.elements|);
      && put == PutBy(task, i)
      && (i == total ==> sender.phase == SenderDone(UndefinedError))
      && (i < total && h + i == |gets| ==> sender.phase == Awaiting)
      && (i < total && h + i < |gets| ==>
        var report := LatestOf(gets, h + i + 1);
        sender.phase == SenderDone(
          if gets[h + i].Nothing? then TimedOut
          else if report.chunkId != i then SynchError
          else if report.state == Finished then (if i == total - 1 then Okay else SynchError)
          else Interrupted))
  {
    hide PutBy, Acknowledged;
    if i == TotalChunks(|task.elements|) {
      DoneStaysDone(task, gets, h + i);
    } else if h + i == |gets| {
      assert gets[..h + i] == gets;
    } else {
      SenderStops(task, gets, h, i);
    }
  }
}
