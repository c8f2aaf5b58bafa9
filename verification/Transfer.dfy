/** The chunked trajectory transfer (HuboPath/src/hubo_path.cpp): one sender and one receiver over two channels.

    A channel is the sequence of frames put on it since it was flushed, with the reader's cursor. A reader may time out
    or fail at any time, and may lose any number of frames; a user may put a cancel request on the sender's channel. */
module TrajectoryTransfer {
  import opened NatArith
  import opened PathTypes

  const CHUNK_MAX: nat := 100
  const TX_CANCEL: int := -2

  datatype RxState = Ignoring | ReadReady | Listening | RxTimeout | Discontinuity | RxAchError | Finished | Canceled

  datatype Feedback = Feedback(state: RxState, chunkId: int, expectedSize: int)

  /** The relevant elements only; the program sends a fixed array of 100 and their number. */
  datatype Chunk = Chunk(params: Params, elements: seq<Element>, chunkId: int, totalChunks: int)

  datatype Result = Okay | TimedOut | SynchError | Interrupted | AchError | UndefinedError

  /** What a read of a channel yields: no frame in time, a failure, the next frame, or a frame after some were lost. The
      sender makes no difference between the last two; to the receiver a loss is a failure. */
  datatype Get<T> = Nothing | Broken | Got(frame: T) | Missed(frame: T)

  /** The trajectory to be sent, and the number of seconds the sender is ready to wait. */
  datatype Task = Task(params: Params, elements: seq<Element>, maxWaitTime: int)

  /** The number of chunks: the element count over 100, rounded up. */
  function TotalChunks(n: nat): nat {
    (n + CHUNK_MAX - 1) / CHUNK_MAX
  }

  /** How many elements the first k chunks carry. */
  function Carried(n: nat, k: nat): nat {
    MinNat(CHUNK_MAX * k, n)
  }

  function ChunkOf(task: Task, i: nat): Chunk
    requires i < TotalChunks(|task.elements|)
  {
    var n := |task.elements|;
    Chunk(task.params, task.elements[Carried(n, i)..Carried(n, i + 1)], i, TotalChunks(n))
  }

  function AllChunks(task: Task): (chunks: seq<Chunk>)
    ensures |chunks| == TotalChunks(|task.elements|)
    ensures forall i :: 0 <= i < |chunks| ==> chunks[i] == ChunkOf(task, i)
  {
    seq(TotalChunks(|task.elements|), i requires 0 <= i < TotalChunks(|task.elements|) => ChunkOf(task, i))
  }

  /** Every chunk but the last is full, and the last is not empty. */
  lemma ChunksAreFull(task: Task, i: nat)
    requires i < TotalChunks(|task.elements|)
    ensures i + 1 < TotalChunks(|task.elements|) ==> |ChunkOf(task, i).elements| == CHUNK_MAX
    ensures i + 1 == TotalChunks(|task.elements|) ==> 1 <= |ChunkOf(task, i).elements| <= CHUNK_MAX
    ensures i + 1 == TotalChunks(|task.elements|) ==> Carried(|task.elements|, i + 1) == |task.elements|
  {}

  function Joined(task: Task, k: nat): seq<Element>
    requires k <= TotalChunks(|task.elements|)
  {
    if k == 0 then [] else Joined(task, k - 1) + ChunkOf(task, k - 1).elements
  }

  /** Putting the chunks together again gives back the trajectory. */
  lemma {:induction false} JoinedIsPrefix(task: Task, k: nat)
    requires k <= TotalChunks(|task.elements|)
    ensures Joined(task, k) == task.elements[..Carried(|task.elements|, k)]
    ensures k == TotalChunks(|task.elements|) ==> Joined(task, k) == task.elements
  {
    if 0 < k {
      JoinedIsPrefix(task, k - 1);
      ChunksAreFull(task, k - 1);
    }
  }

  // ----- The sender -----

  datatype SenderPhase = Handshaking | Sending | Awaiting | SenderDone(result: Result)

  /** `sent` counts the chunks put so far: the next chunk's number while sending, one more than the number of the chunk
      in flight while awaiting its acknowledgment. `counter` is the number of elements packed so far. */
  datatype Sender = Sender(phase: SenderPhase, feedback: Feedback, attempts: nat, sent: nat, counter: nat)

  function ZeroFeedback(): Feedback {
    Feedback(Ignoring, 0, 0)
  }

  function SenderStart(): Sender {
    Sender(Handshaking, ZeroFeedback(), 0, 0, 0)
  }

  function Latest(feedback: Feedback, get: Get<Feedback>): Feedback {
    if get.Got? || get.Missed? then get.frame else feedback
  }

  /** One round of waiting for readiness; the sender goes on even when its attempts run out. */
  function Handshake(task: Task, s: Sender, get: Get<Feedback>): Sender
    requires s.phase.Handshaking?
  {
    var s1 := s.(attempts := s.attempts + 1, feedback := Latest(s.feedback, get));
    if get.Broken? then s1.(phase := SenderDone(AchError))
    else if s1.feedback.state != ReadReady && s1.attempts <= task.maxWaitTime then s1
    else s1.(phase := Sending)
  }

  /** Packs and puts the next chunk; when there is none the loop is over without success. */
  function PutNext(task: Task, s: Sender): (r: (Sender, seq<Chunk>))
    requires s.phase.Sending?
  {
    if s.sent < TotalChunks(|task.elements|) then
      (s.(phase := Awaiting, sent := s.sent + 1, counter := Carried(|task.elements|, s.sent + 1)),
       [ChunkOf(task, s.sent)])
    else (s.(phase := SenderDone(UndefinedError)), [])
  }

  /** Judges the acknowledgment of the chunk in flight. A failed read leaves the previous feedback in place. */
  function Judge(task: Task, s: Sender, get: Get<Feedback>): Sender
    requires s.phase.Awaiting? && 0 < s.sent
  {
    var i, total, feedback := s.sent - 1, TotalChunks(|task.elements|), Latest(s.feedback, get);
    var phase :=
      if get.Nothing? then SenderDone(TimedOut)
      else if feedback.chunkId != i then SenderDone(SynchError)
      else if feedback.state == Finished && feedback.chunkId == total - 1 then SenderDone(Okay)
      else if feedback.state == Finished then SenderDone(SynchError)
      else if feedback.state != Listening then SenderDone(Interrupted)
      else Sending;
    s.(phase := phase, feedback := feedback)
  }

  // ----- The receiver -----

  datatype ReceiverPhase = Announcing | Receiving | ReceiverDone(result: Result)

  /** `chunk` is the last chunk read, `state` the last state reported. */
  datatype Receiver = Receiver(
    phase: ReceiverPhase, chunk: Chunk, state: RxState, chunkId: int, totalChunks: int,
    params: Params, elements: seq<Element>)

  /** The chunk variable starts out uninitialised. */
  function ReceiverStart(garbage: Chunk): Receiver {
    Receiver(Announcing, garbage, ReadReady, -1, 1, ZeroParams(), [])
  }

  function Announce(r: Receiver): (Receiver, Feedback)
    requires r.phase.Announcing?
  {
    (r.(phase := Receiving), Feedback(ReadReady, 0, 0))
  }

  function GiveUp(r: Receiver, state: RxState, result: Result): (Receiver, Feedback) {
    (r.(phase := ReceiverDone(result), state := state), Feedback(state, r.chunk.chunkId, r.chunk.totalChunks))
  }

  /** One round of the receive loop: the next receiver, and what it reports. */
  function Receive(r: Receiver, get: Get<Chunk>): (Receiver, Feedback)
    requires r.phase.Receiving?
  {
    match get
    case Nothing => GiveUp(r, RxTimeout, TimedOut)
    case Broken => GiveUp(r, RxAchError, AchError)
    case Missed(chunk) => GiveUp(r.(chunk := chunk), RxAchError, AchError)
    case Got(chunk) =>
      var r1 := r.(chunk := chunk);
      if chunk.chunkId == TX_CANCEL then GiveUp(r1, Canceled, Interrupted)
      else if chunk.chunkId == r.chunkId + 1 then Accept(r1, chunk)
      else GiveUp(r1, Discontinuity, SynchError)
  }

  function Accept(r: Receiver, chunk: Chunk): (Receiver, Feedback) {
    var state := if chunk.chunkId < chunk.totalChunks - 1 then Listening
                 else if chunk.chunkId == chunk.totalChunks - 1 then Finished
                 else r.state;
    var phase := if chunk.chunkId < chunk.totalChunks - 1 then Receiving else ReceiverDone(Okay);
    (Receiver(phase, chunk, state, chunk.chunkId, chunk.totalChunks, chunk.params, r.elements + chunk.elements),
     Feedback(state, chunk.chunkId, chunk.totalChunks))
  }

  // ----- The two together -----

  datatype Channel<T> = Channel(frames: seq<T>, read: nat)

  function Put<T>(channel: Channel<T>, frames: seq<T>): Channel<T> {
    channel.(frames := channel.frames + frames)
  }

  datatype System = System(sender: Sender, receiver: Receiver, chunks: Channel<Chunk>, acks: Channel<Feedback>)

  predicate Initial(s: System) {
    && s.sender == SenderStart()
    && s.receiver == ReceiverStart(s.receiver.chunk)
    && s.chunks == Channel([], 0) && s.acks == Channel([], 0)
  }

  /** Reading frame k loses the unread frames before it. */
  datatype Read = NoFrame | Failure | FrameAt(k: nat)

  predicate CanRead<T>(channel: Channel<T>, read: Read) {
    read.FrameAt? ==> channel.read <= read.k < |channel.frames|
  }

  function Fetch<T>(channel: Channel<T>, read: Read): Get<T>
    requires CanRead(channel, read)
  {
    match read
    case NoFrame => Nothing
    case Failure => Broken
    case FrameAt(k) => if k == channel.read then Got(channel.frames[k]) else Missed(channel.frames[k])
  }

  function Advance<T>(channel: Channel<T>, read: Read): Channel<T> {
    if read.FrameAt? then channel.(read := read.k + 1) else channel
  }

  datatype Event =
    | SenderHandshakes(read: Read) | SenderPuts | SenderJudges(read: Read)
    | ReceiverAnnounces | ReceiverReads(read: Read)
    | UserCancels(request: Chunk)

  predicate Enabled(s: System, e: Event) {
    match e
    case SenderHandshakes(read) => s.sender.phase.Handshaking? && CanRead(s.acks, read)
    case SenderPuts => s.sender.phase.Sending?
    case SenderJudges(read) => s.sender.phase.Awaiting? && 0 < s.sender.sent && CanRead(s.acks, read)
    case ReceiverAnnounces => s.receiver.phase.Announcing?
    case ReceiverReads(read) => s.receiver.phase.Receiving? && CanRead(s.chunks, read)
    case UserCancels(request) => request.chunkId == TX_CANCEL
  }

  function Next(task: Task, s: System, e: Event): System
    requires Enabled(s, e)
  {
    match e
    case SenderHandshakes(read) =>
      s.(sender := Handshake(task, s.sender, Fetch(s.acks, read)), acks := Advance(s.acks, read))
    case SenderPuts =>
      var (sender, chunks) := PutNext(task, s.sender);
      s.(sender := sender, chunks := Put(s.chunks, chunks))
    case SenderJudges(read) =>
      s.(sender := Judge(task, s.sender, Fetch(s.acks, read)), acks := Advance(s.acks, read))
    case ReceiverAnnounces =>
      var (receiver, ack) := Announce(s.receiver);
      s.(receiver := receiver, acks := Put(s.acks, [ack]))
    case ReceiverReads(read) =>
      var (receiver, ack) := Receive(s.receiver, Fetch(s.chunks, read));
      s.(receiver := receiver, chunks := Advance(s.chunks, read), acks := Put(s.acks, [ack]))
    case UserCancels(request) => s.(chunks := Put(s.chunks, [request]))
  }

  /** The state after a sequence of events, as long as each of them can happen. */
  function After(task: Task, s: System, events: seq<Event>): System {
    if events == [] then s
    else
      var before := After(task, s, events[..|events| - 1]);
      if Enabled(before, events[|events| - 1]) then Next(task, before, events[|events| - 1]) else before
  }

  // ----- Safety over every run -----

  /** The receiver holds exactly the chunks it accepted. */
  predicate ReceiverHoldsPrefix(task: Task, s: System) {
    var n, r := |task.elements|, s.receiver;
    && -1 <= r.chunkId < TotalChunks(n)
    && r.elements == task.elements[..Carried(n, r.chunkId + 1)]
    && (0 <= r.chunkId ==> r.params == task.params && r.totalChunks == TotalChunks(n))
    && (r.chunkId == -1 ==> r.totalChunks == 1)
    && (r.phase.Announcing? ==> r.chunkId == -1)
    && (r.phase.Receiving? ==> r.chunkId < r.totalChunks - 1)
    && (r.phase == ReceiverDone(Okay) ==> 0 <= r.chunkId == TotalChunks(n) - 1)
  }

  /** What a report tells about the receiver, from then on. */
  predicate Truthful(task: Task, r: Receiver, ack: Feedback) {
    && (ack.state == Finished ==> r.phase == ReceiverDone(Okay) && ack.chunkId == TotalChunks(|task.elements|) - 1)
    && (ack.state == Listening ==> 0 <= ack.chunkId <= r.chunkId)
  }

  predicate Genuine(task: Task, sent: nat, chunk: Chunk) {
    chunk.chunkId == TX_CANCEL
    || (0 <= chunk.chunkId < MinNat(sent, TotalChunks(|task.elements|)) && chunk == ChunkOf(task, chunk.chunkId))
  }

  /** At most one chunk is in flight. */
  predicate InStep(s: System) {
    && s.receiver.chunkId < s.sender.sent
    && (s.sender.phase.Handshaking? ==> s.sender.sent == 0)
    && (s.sender.phase.Sending? ==> s.receiver.chunkId == s.sender.sent - 1)
    && (s.sender.phase.Awaiting? ==> 0 < s.sender.sent && s.sender.sent - 2 <= s.receiver.chunkId)
    && (s.sender.phase == SenderDone(Okay) ==> s.receiver.phase == ReceiverDone(Okay))
  }

  predicate Inv(task: Task, s: System) {
    && ReceiverHoldsPrefix(task, s)
    && InStep(s)
    && s.sender.sent <= TotalChunks(|task.elements|)
    && s.sender.counter == Carried(|task.elements|, s.sender.sent)
    && Truthful(task, s.receiver, s.sender.feedback)
    && (forall i :: 0 <= i < |s.acks.frames| ==> Truthful(task, s.receiver, s.acks.frames[i]))
    && (forall i :: 0 <= i < |s.chunks.frames| ==> Genuine(task, s.sender.sent, s.chunks.frames[i]))
  }

  lemma InitialInv(task: Task, s: System)
    requires Initial(s)
    ensures Inv(task, s)
  {}

  lemma {:induction false} NextInv(task: Task, s: System, e: Event)
    requires Inv(task, s) && Enabled(s, e)
    ensures Inv(task, Next(task, s, e))
  {
    match e
    case ReceiverReads(read) => ReceiverReadInv(task, s, read);
    case SenderPuts => SenderPutInv(task, s);
    case _ =>
  }

  lemma SenderPutInv(task: Task, s: System)
    requires Inv(task, s) && Enabled(s, SenderPuts)
    ensures Inv(task, Next(task, s, SenderPuts))
  {}

  lemma {:induction false} ReceiverReadInv(task: Task, s: System, read: Read)
    requires Inv(task, s) && Enabled(s, ReceiverReads(read))
    ensures Inv(task, Next(task, s, ReceiverReads(read)))
  {
    if read.FrameAt? && s.chunks.frames[read.k].chunkId == s.receiver.chunkId + 1 {
      AcceptInv(task, s, read.k);
    } else if read.FrameAt? {
      assert Genuine(task, s.sender.sent, s.chunks.frames[read.k]);
    }
  }

  lemma AcceptInv(task: Task, s: System, k: nat)
    requires Inv(task, s) && Enabled(s, ReceiverReads(FrameAt(k)))
    requires s.chunks.frames[k].chunkId == s.receiver.chunkId + 1
    ensures Inv(task, Next(task, s, ReceiverReads(FrameAt(k))))
  {
    hide Carried, ChunkOf;
    var chunk, i := s.chunks.frames[k], s.receiver.chunkId + 1;
    assert Genuine(task, s.sender.sent, chunk);
    AcceptExtends(task, s.receiver.elements, i);
  }

  lemma AcceptExtends(task: Task, elements: seq<Element>, i: nat)
    requires i < TotalChunks(|task.elements|) && elements == task.elements[..Carried(|task.elements|, i)]
    ensures elements + ChunkOf(task, i).elements == task.elements[..Carried(|task.elements|, i + 1)]
    ensures ChunkOf(task, i).chunkId == i && ChunkOf(task, i).totalChunks == TotalChunks(|task.elements|)
    ensures ChunkOf(task, i).params == task.params
  {}

  lemma {:induction false} RunInv(task: Task, s: System, events: seq<Event>)
    requires Initial(s)
    ensures Inv(task, After(task, s, events))
  {
    if events == [] {
      InitialInv(task, s);
    } else {
      RunInv(task, s, events[..|events| - 1]);
      var before := After(task, s, events[..|events| - 1]);
      if Enabled(before, events[|events| - 1]) {
        NextInv(task, before, events[|events| - 1]);
      }
    }
  }

  /** In every run, whatever is lost, times out, fails or is cancelled, the receiver holds a whole-chunk prefix of the
      trajectory; when either side reports success it holds all of it, with the sender's parameters; and at most one
      chunk is unacknowledged. */
  lemma {:induction false} TransferIsSafe(task: Task, s: System, events: seq<Event>)
    requires Initial(s)
    ensures var t := After(task, s, events); var k := t.receiver.chunkId + 1;
      && 0 <= k <= t.sender.sent <= TotalChunks(|task.elements|)
      && t.receiver.elements == Joined(task, k)
      && (t.sender.phase == SenderDone(Okay) ==> t.receiver.phase == ReceiverDone(Okay))
      && (t.receiver.phase == ReceiverDone(Okay) ==>
        t.receiver.elements == task.elements && t.receiver.params == task.params)
      && (t.sender.phase.Sending? || t.sender.phase.Awaiting? ==> t.sender.sent <= k + 1)
  {
    RunInv(task, s, events);
    JoinedIsPrefix(task, After(task, s, events).receiver.chunkId + 1);
  }

  // ----- Channels that lose nothing -----

  /** Events of a run without loss, failure, timeout or cancel: reads wait for a frame, the receiver reads frames in
      order, and the sender reads the newest. */
  predicate LosslessEnabled(s: System, e: Event) {
    match e
    case SenderHandshakes(read) => s.sender.phase.Handshaking? && ReadsNewest(s.acks, read)
    case SenderPuts => s.sender.phase.Sending?
    case SenderJudges(read) => s.sender.phase.Awaiting? && 0 < s.sender.sent && ReadsNewest(s.acks, read)
    case ReceiverAnnounces => s.receiver.phase.Announcing?
    case ReceiverReads(read) => s.receiver.phase.Receiving? && ReadsNext(s.chunks, read)
    case UserCancels(_) => false
  }

  predicate ReadsNewest<T>(channel: Channel<T>, read: Read) {
    channel.read < |channel.frames| && read == FrameAt(|channel.frames| - 1)
  }

  predicate ReadsNext<T>(channel: Channel<T>, read: Read) {
    channel.read < |channel.frames| && read == FrameAt(channel.read)
  }

  predicate LosslessRun(task: Task, s: System, events: seq<Event>) {
    events == [] ||
    (LosslessRun(task, s, events[..|events| - 1])
     && LosslessEnabled(After(task, s, events[..|events| - 1]), events[|events| - 1]))
  }

  /** What the receiver reports after accepting chunk i, or when it gets ready. */
  function Report(task: Task, i: int): Feedback {
    var total := TotalChunks(|task.elements|);
    if i < 0 then Feedback(ReadReady, 0, 0)
    else Feedback(if i < total - 1 then Listening else Finished, i, total)
  }

  /** Steps taken so far: each chunk is put, received and acknowledged, after the announcement and the handshake. */
  function Progress(s: System): int {
    var acknowledged := if s.sender.phase.Awaiting? then s.sender.sent - 1 else s.sender.sent;
    (if s.receiver.phase.Announcing? then 0 else 1) + (if s.sender.phase.Handshaking? then 0 else 1)
    + s.sender.sent + (s.receiver.chunkId + 1) + acknowledged
  }

  predicate LosslessInv(task: Task, s: System) {
    var total, i := TotalChunks(|task.elements|), s.receiver.chunkId;
    && |s.chunks.frames| == s.sender.sent && s.chunks.read == i + 1 <= s.sender.sent <= total
    && (forall k :: 0 <= k < s.sender.sent ==> s.chunks.frames[k] == ChunkOf(task, k))
    && (if s.receiver.phase.Announcing? then
          i == -1 && s.acks == Channel([], 0) && s.sender.phase.Handshaking?
        else
          && s.receiver.phase == (if i < total - 1 then Receiving else ReceiverDone(Okay))
          && |s.acks.frames| == i + 2 && s.acks.frames[i + 1] == Report(task, i))
    && (match s.sender.phase
        case Handshaking => s.sender.sent == 0 && s.acks.read == 0
        case Sending => i == s.sender.sent - 1 && s.sender.sent < total && s.acks.read == |s.acks.frames|
        case Awaiting => s.sender.sent - 2 <= i <= s.sender.sent - 1 && s.acks.read == s.sender.sent
        case SenderDone(result) => result == Okay && s.sender.sent == total && i == total - 1)
  }

  lemma LosslessNext(task: Task, s: System, e: Event)
    requires task.elements != [] && Inv(task, s) && LosslessInv(task, s) && LosslessEnabled(s, e)
    ensures Enabled(s, e)
    ensures LosslessInv(task, Next(task, s, e))
    ensures Progress(Next(task, s, e)) == Progress(s) + 1
  {
    hide Inv, Carried, ReceiverHoldsPrefix, InStep;
    match e
    case SenderPuts => LosslessPut(task, s);
    case ReceiverReads(read) => LosslessReceive(task, s, read);
    case _ =>
  }

  lemma LosslessPut(task: Task, s: System)
    requires task.elements != [] && LosslessInv(task, s) && LosslessEnabled(s, SenderPuts)
    ensures LosslessInv(task, Next(task, s, SenderPuts))
    ensures Progress(Next(task, s, SenderPuts)) == Progress(s) + 1
  {
    hide Carried;
  }

  lemma LosslessReceive(task: Task, s: System, read: Read)
    requires task.elements != [] && LosslessInv(task, s) && LosslessEnabled(s, ReceiverReads(read))
    ensures LosslessInv(task, Next(task, s, ReceiverReads(read)))
    ensures Progress(Next(task, s, ReceiverReads(read))) == Progress(s) + 1
  {
    hide Carried;
    assert s.chunks.frames[s.chunks.read] == ChunkOf(task, s.receiver.chunkId + 1);
  }

  lemma {:induction false} LosslessRunInv(task: Task, s: System, events: seq<Event>)
    requires task.elements != [] && Initial(s) && LosslessRun(task, s, events)
    ensures LosslessInv(task, After(task, s, events)) && Progress(After(task, s, events)) == |events|
  {
    if events != [] {
      var before := After(task, s, events[..|events| - 1]);
      LosslessRunInv(task, s, events[..|events| - 1]);
      RunInv(task, s, events[..|events| - 1]);
      LosslessNext(task, before, events[|events| - 1]);
    }
  }

  /** Until both sides are done, one of them can move. */
  lemma {:induction false} NoDeadlock(task: Task, s: System) returns (e: Event)
    requires task.elements != [] && Inv(task, s) && LosslessInv(task, s)
    requires !(s.sender.phase.SenderDone? && s.receiver.phase.ReceiverDone?)
    ensures LosslessEnabled(s, e)
  {
    if s.receiver.phase.Announcing? {
      e := ReceiverAnnounces;
    } else if s.sender.phase.Sending? {
      e := SenderPuts;
    } else if s.acks.read < |s.acks.frames| {
      var newest := FrameAt(|s.acks.frames| - 1);
      e := if s.sender.phase.Handshaking? then SenderHandshakes(newest) else SenderJudges(newest);
    } else {
      e := ReceiverReads(FrameAt(s.chunks.read));
    }
  }

  /** Steps of a complete transfer without loss. */
  function CompleteLength(task: Task): nat {
    3 * TotalChunks(|task.elements|) + 2
  }

  /** Without loss, every run of a non-empty trajectory takes at most 3T+2 steps for its T chunks; a shorter run can
      always go on; and a run of that length ends with success on both sides, after exactly the T chunks, with the
      receiver holding the trajectory. */
  lemma {:induction false} LosslessTransferSucceeds(task: Task, s: System, events: seq<Event>) returns (e: Event)
    requires task.elements != [] && Initial(s) && LosslessRun(task, s, events)
    ensures |events| <= CompleteLength(task)
    ensures |events| < CompleteLength(task) ==> LosslessEnabled(After(task, s, events), e)
    ensures var t := After(task, s, events);
      |events| == CompleteLength(task) ==>
        && t.sender.phase == SenderDone(Okay) && t.receiver.phase == ReceiverDone(Okay)
        && t.chunks.frames == AllChunks(task)
        && t.receiver.elements == task.elements && t.receiver.params == task.params
  {
    var t := After(task, s, events);
    RunInv(task, s, events);
    LosslessRunInv(task, s, events);
    TransferIsSafe(task, s, events);
    if |events| < CompleteLength(task) {
      e := NoDeadlock(task, t);
    } else {
      e := SenderPuts;
    }
  }

  // ----- The two loops as they are written, fed with what their reads yield -----

  /** The sender and what it put after `gets` answered its reads. */
  function SenderAfter(task: Task, gets: seq<Get<Feedback>>): (r: (Sender, seq<Chunk>))
    ensures r.0.phase.Awaiting? ==> 0 < r.0.sent
    ensures !r.0.phase.Sending?
  {
    if gets == [] then (SenderStart(), [])
    else
      var (s, put) := SenderAfter(task, gets[..|gets| - 1]);
      var get := gets[|gets| - 1];
      var s1 := match s.phase
        case Handshaking => Handshake(task, s, get)
        case Awaiting => Judge(task, s, get)
        case _ => s;
      if s1.phase.Sending? then
        var (s2, chunks) := PutNext(task, s1);
        (s2, put + chunks)
      else (s1, put)
  }

  /** Packs up to a hundred elements, starting from the counter. */
  method PackChunk(task: Task, i: nat, counter: nat) returns (chunk: Chunk, newCounter: nat)
    requires i < TotalChunks(|task.elements|) && counter == Carried(|task.elements|, i)
    ensures chunk == ChunkOf(task, i) && newCounter == Carried(|task.elements|, i + 1)
  {
    var elements: seq<Element> := [];
    var c := 0;
    newCounter := counter;
    while c < CHUNK_MAX && newCounter < |task.elements|
      invariant 0 <= c <= CHUNK_MAX && newCounter == counter + c <= |task.elements|
      invariant elements == task.elements[counter..newCounter]
    {
      elements := elements + [task.elements[newCounter]];
      c, newCounter := c + 1, newCounter + 1;
    }
    chunk := Chunk(task.params, elements, i, TotalChunks(|task.elements|));
  }

  /** The first loop of `send_trajectory`: asks for readiness once a second. */
  method AwaitReadiness(task: Task, gets: seq<Get<Feedback>>)
    returns (phase: SenderPhase, feedback: Feedback, attempts: nat, next: nat)
    ensures next <= |gets|
    ensures phase.Sending? ==>
      SenderAfter(task, gets[..next]) == PutNextAfter(task, Sender(Sending, feedback, attempts, 0, 0), [])
    ensures !phase.Sending? ==> SenderAfter(task, gets).0.phase == phase && SenderAfter(task, gets).1 == []
  {
    feedback, attempts, next := ZeroFeedback(), 0, 0;
    while true
      invariant next <= |gets|
      invariant SenderAfter(task, gets[..next]) == (Sender(Handshaking, feedback, attempts, 0, 0), [])
      decreases |gets| - next
    {
      if next == |gets| {
        assert gets[..next] == gets;
        return Handshaking, feedback, attempts, next;
      }
      attempts := attempts + 1;
      var get := gets[next];
      next := next + 1;
      assert gets[..next][..next - 1] == gets[..next - 1];
      feedback := Latest(feedback, get);
      if get.Broken? {
        DoneStaysDone(task, gets, next);
        return SenderDone(AchError), feedback, attempts, next;
      }
      if !(feedback.state != ReadReady && attempts <= task.maxWaitTime) {
        return Sending, feedback, attempts, next;
      }
    }
  }

  /** `send_trajectory`: the chunks it puts and its result, or that it is still waiting when the answers run out. */
  method SendTrajectory(task: Task, gets: seq<Get<Feedback>>) returns (result: SenderPhase, put: seq<Chunk>)
    ensures result == SenderAfter(task, gets).0.phase && put == SenderAfter(task, gets).1
  {
    hide ChunkOf, Carried, TotalChunks, Handshake;
    var phase, feedback, attempts, next := AwaitReadiness(task, gets);
    put := [];
    if !phase.Sending? {
      return phase, put;
    }
    var total := TotalChunks(|task.elements|);
    var i, counter := 0, 0;
    CarriedNone(task);
    while i < total
      invariant 0 <= i <= total && counter == Carried(|task.elements|, i) && 0 <= next <= |gets|
      invariant SenderAfter(task, gets[..next])
        == PutNextAfter(task, Sender(Sending, feedback, attempts, i, counter), put)
    {
      var chunk;
      chunk, counter := PackChunk(task, i, counter);
      put := put + [chunk];
      ghost var waiting := Sender(Awaiting, feedback, attempts, i + 1, counter);
      assert SenderAfter(task, gets[..next]) == (waiting, put);
      if next == |gets| {
        assert gets[..next] == gets;
        return Awaiting, put;
      }
      var get := gets[next];
      next := next + 1;
      assert gets[..next][..next - 1] == gets[..next - 1];
      feedback := Latest(feedback, get);
      var verdict := JudgeFeedback(task, i, get.Nothing?, feedback);
      assert Judge(task, waiting, get).phase == verdict;
      if !verdict.Sending? {
        DoneStaysDone(task, gets, next);
        return verdict, put;
      }
      i := i + 1;
    }
    DoneStaysDone(task, gets, next);
    return SenderDone(UndefinedError), put;
  }

  lemma {:induction false} CarriedNone(task: Task)
    ensures Carried(|task.elements|, 0) == 0
  {}

  /** The checks after each acknowledgment, in their order. */
  method JudgeFeedback(task: Task, i: nat, timedOut: bool, feedback: Feedback) returns (phase: SenderPhase)
    ensures forall s: Sender, get: Get<Feedback> ::
      s.phase.Awaiting? && s.sent == i + 1 && get.Nothing? == timedOut && Latest(s.feedback, get) == feedback ==>
        phase == Judge(task, s, get).phase
    ensures phase.Sending? || phase.SenderDone?
  {
    var total: int := TotalChunks(|task.elements|);
    if timedOut {
      return SenderDone(TimedOut);
    }
    if feedback.chunkId != i {
      return SenderDone(SynchError);
    }
    if feedback.state == Finished && feedback.chunkId == total - 1 {
      return SenderDone(Okay);
    } else if feedback.state == Finished && feedback.chunkId != total - 1 {
      return SenderDone(SynchError);
    }
    if feedback.state != Listening {
      return SenderDone(Interrupted);
    }
    return Sending;
  }

  function PutNextAfter(task: Task, s: Sender, put: seq<Chunk>): (Sender, seq<Chunk>)
    requires s.phase.Sending?
  {
    (PutNext(task, s).0, put + PutNext(task, s).1)
  }

  /** Once the sender is done, further frames change nothing. */
  lemma {:induction false} DoneStaysDone(task: Task, gets: seq<Get<Feedback>>, k: nat)
    requires k <= |gets| && SenderAfter(task, gets[..k]).0.phase.SenderDone?
    ensures SenderAfter(task, gets).0.phase == SenderAfter(task, gets[..k]).0.phase
    ensures SenderAfter(task, gets).1 == SenderAfter(task, gets[..k]).1
  {
    if k < |gets| {
      assert gets[..|gets| - 1][..k] == gets[..k];
      DoneStaysDone(task, gets[..|gets| - 1], k);
    } else {
      assert gets[..k] == gets;
    }
  }

  /** The receiver and its reports after `gets` answered its reads. */
  function ReceiverAfter(garbage: Chunk, gets: seq<Get<Chunk>>): (r: (Receiver, seq<Feedback>))
    ensures !r.0.phase.Announcing?
  {
    if gets == [] then
      var (r, ack) := Announce(ReceiverStart(garbage));
      (r, [ack])
    else
      var (r, acks) := ReceiverAfter(garbage, gets[..|gets| - 1]);
      if r.phase.Receiving? then
        var (r1, ack) := Receive(r, gets[|gets| - 1]);
        (r1, acks + [ack])
      else (r, acks)
  }

  lemma {:induction false} ReceiverDoneStaysDone(garbage: Chunk, gets: seq<Get<Chunk>>, k: nat)
    requires k <= |gets| && ReceiverAfter(garbage, gets[..k]).0.phase.ReceiverDone?
    ensures ReceiverAfter(garbage, gets) == ReceiverAfter(garbage, gets[..k])
  {
    if k < |gets| {
      assert gets[..|gets| - 1][..k] == gets[..k];
      ReceiverDoneStaysDone(garbage, gets[..|gets| - 1], k);
    } else {
      assert gets[..k] == gets;
    }
  }

  /** `receive_trajectory`: the elements and parameters it has collected, its reports, and whether it is done. */
  method ReceiveTrajectory(garbage: Chunk, gets: seq<Get<Chunk>>)
    returns (phase: ReceiverPhase, params: Params, elements: seq<Element>, acks: seq<Feedback>)
    ensures var (r, reports) := ReceiverAfter(garbage, gets);
      phase == r.phase && params == r.params && elements == r.elements && acks == reports
  {
    params, elements := ZeroParams(), [];
    var state := ReadReady;
    acks := [Feedback(state, 0, 0)];
    var chunk, chunkId, totalChunks, next := garbage, -1, 1, 0;
    while chunkId < totalChunks - 1
      invariant next <= |gets|
      invariant ReceiverAfter(garbage, gets[..next]) ==
        (Receiver(if chunkId < totalChunks - 1 then Receiving else ReceiverDone(Okay),
                  chunk, state, chunkId, totalChunks, params, elements), acks)
      decreases |gets| - next, totalChunks - chunkId
    {
      if next == |gets| {
        assert gets[..next] == gets;
        return Receiving, params, elements, acks;
      }
      var get := gets[next];
      next := next + 1;
      assert gets[..next][..next - 1] == gets[..next - 1];
      if get.Nothing? {
        acks := acks + [Feedback(RxTimeout, chunk.chunkId, chunk.totalChunks)];
        ReceiverDoneStaysDone(garbage, gets, next);
        return ReceiverDone(TimedOut), params, elements, acks;
      } else if !get.Got? {
        if get.Missed? { chunk := get.frame; }
        acks := acks + [Feedback(RxAchError, chunk.chunkId, chunk.totalChunks)];
        ReceiverDoneStaysDone(garbage, gets, next);
        return ReceiverDone(AchError), params, elements, acks;
      }
      chunk := get.frame;
      if chunk.chunkId == TX_CANCEL {
        acks := acks + [Feedback(Canceled, chunk.chunkId, chunk.totalChunks)];
        ReceiverDoneStaysDone(garbage, gets, next);
        return ReceiverDone(Interrupted), params, elements, acks;
      }
      if chunk.chunkId == chunkId + 1 {
        elements := elements + chunk.elements;
        params := chunk.params;
      } else {
        acks := acks + [Feedback(Discontinuity, chunk.chunkId, chunk.totalChunks)];
        ReceiverDoneStaysDone(garbage, gets, next);
        return ReceiverDone(SynchError), params, elements, acks;
      }
      chunkId, totalChunks := chunk.chunkId, chunk.totalChunks;
      if chunkId < totalChunks - 1 {
        state := Listening;
      } else if chunkId == totalChunks - 1 {
        state := Finished;
      }
      acks := acks + [Feedback(state, chunk.chunkId, chunk.totalChunks)];
    }
    ReceiverDoneStaysDone(garbage, gets, next);
    return ReceiverDone(Okay), params, elements, acks;
  }
}
