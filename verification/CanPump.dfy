/** The CAN cycle scheduler (HuboCan/src/CanPump.cpp, HuboCan/CanPump.hpp). */
module CanBusPump {
  import opened NatArith
  import opened Clocks

  const FRAME_BITS: int := 108

  datatype Frame = Frame(id: int, data: seq<int>)

  /** One channel: its counters, its two queues, and every frame sent on it so far. */
  datatype Line = Line(netLost: int, expectation: int, requests: seq<Frame>, commands: seq<Frame>, sent: seq<Frame>) {

    function FrameCount(): nat {
      |requests| + |commands|
    }

    function FrameExpectation(): int {
      expectation + FrameCount()
    }

    /** The frames still queued, in the order they will be sent: the latest request first, then the latest command. */
    function Order(): (order: seq<Frame>)
      ensures |order| == FrameCount()
    {
      Reversed(requests) + Reversed(commands)
    }

    function Ledger(): int {
      netLost + expectation
    }
  }

  function Reversed<T>(s: seq<T>): (r: seq<T>)
    ensures |r| == |s|
  {
    if s == [] then [] else [s[|s| - 1]] + Reversed(s[..|s| - 1])
  }

  /** What can happen to the channels. */
  datatype Event =
    | Add(frame: Frame, channel: nat, expected: nat)
    | SendRound
    | Decode(channel: nat)
    | Reset

  /** What an event does to channel c. */
  function Apply(line: Line, e: Event, c: nat): Line {
    match e
    case Add(frame, channel, expected) =>
      if channel != c then line
      else if expected == 0 then line.(commands := line.commands + [frame])
      else line.(expectation := line.expectation + expected, requests := line.requests + [frame])
    case SendRound =>
      if 0 < |line.requests| then
        line.(requests := line.requests[..|line.requests| - 1],
              sent := line.sent + [line.requests[|line.requests| - 1]])
      else if 0 < |line.commands| then
        line.(commands := line.commands[..|line.commands| - 1],
              sent := line.sent + [line.commands[|line.commands| - 1]])
      else line
    case Decode(channel) => if channel == c then line.(expectation := line.expectation - 1) else line
    case Reset => line.(netLost := line.netLost + line.expectation, expectation := 0)
  }

  function Replay(line: Line, events: seq<Event>, c: nat): Line {
    if events == [] then line else Apply(Replay(line, events[..|events| - 1], c), events[|events| - 1], c)
  }

  lemma {:induction false} ReplayConcat(line: Line, first: seq<Event>, second: seq<Event>, c: nat)
    ensures Replay(line, first + second, c) == Replay(Replay(line, first, c), second, c)
  {
    if second == [] {
      assert first + second == first;
    } else {
      ReplayConcat(line, first, second[..|second| - 1], c);
      assert (first + second)[..|first + second| - 1] == first + second[..|second| - 1];
    }
  }

  // ----- Conservation -----

  /** Replies that the frames added to channel c ask for. */
  function Expected(events: seq<Event>, c: nat): int {
    if events == [] then 0
    else
      var last := events[|events| - 1];
      Expected(events[..|events| - 1], c) + (if last.Add? && last.channel == c then last.expected else 0)
  }

  /** Frames decoded from channel c. */
  function Decoded(events: seq<Event>, c: nat): int {
    if events == [] then 0
    else Decoded(events[..|events| - 1], c) + (if events[|events| - 1] == Decode(c) then 1 else 0)
  }

  /** Frames added to channel c. */
  function Added(events: seq<Event>, c: nat): multiset<Frame> {
    if events == [] then multiset{}
    else
      var last := events[|events| - 1];
      Added(events[..|events| - 1], c) + (if last.Add? && last.channel == c then multiset{last.frame} else multiset{})
  }

  /** In every run, across cycles and unsolicited frames, a channel's lost and awaited replies together are the replies
      its frames asked for less the frames decoded. */
  lemma {:induction false} RepliesAreConserved(line: Line, events: seq<Event>, c: nat)
    ensures Replay(line, events, c).Ledger() == line.Ledger() + Expected(events, c) - Decoded(events, c)
  {
    if events != [] {
      RepliesAreConserved(line, events[..|events| - 1], c);
    }
  }

  function Held(line: Line): multiset<Frame> {
    multiset(line.requests) + multiset(line.commands) + multiset(line.sent)
  }

  /** No frame is lost or sent twice: what was queued or sent, and what is added, is queued or sent. */
  lemma {:induction false} FramesAreConserved(line: Line, events: seq<Event>, c: nat)
    ensures Held(Replay(line, events, c)) == Held(line) + Added(events, c)
  {
    if events != [] {
      FramesAreConserved(line, events[..|events| - 1], c);
      OneEventConserves(Replay(line, events[..|events| - 1], c), events[|events| - 1], c);
    }
  }

  lemma OneEventConserves(line: Line, e: Event, c: nat)
    ensures Held(Apply(line, e, c)) == Held(line) + (if e.Add? && e.channel == c then multiset{e.frame} else multiset{})
  {
    match e
    case SendRound => RoundConserves(line, c);
    case Add(frame, channel, expected) => AddConserves(line, frame, channel, expected, c);
    case _ =>
  }

  lemma AddConserves(line: Line, frame: Frame, channel: nat, expected: nat, c: nat)
    ensures Held(Apply(line, Add(frame, channel, expected), c))
      == Held(line) + (if channel == c then multiset{frame} else multiset{})
  {}

  lemma RoundConserves(line: Line, c: nat)
    ensures Held(Apply(line, SendRound, c)) == Held(line)
  {
    hide Held;
    if line.requests != [] {
      RequestMoves(line);
    } else if line.commands != [] {
      CommandMoves(line);
    }
  }

  lemma RequestMoves(line: Line)
    requires line.requests != []
    ensures var last := |line.requests| - 1;
      Held(line.(requests := line.requests[..last], sent := line.sent + [line.requests[last]])) == Held(line)
  {
    var last := |line.requests| - 1;
    LastMoves(line.requests, line.sent);
    Shuffle(multiset(line.requests[..last]), multiset{line.requests[last]}, multiset(line.commands),
            multiset(line.sent));
  }

  lemma CommandMoves(line: Line)
    requires line.commands != []
    ensures var last := |line.commands| - 1;
      Held(line.(commands := line.commands[..last], sent := line.sent + [line.commands[last]])) == Held(line)
  {
    var last := |line.commands| - 1;
    LastMoves(line.commands, line.sent);
    Shuffle(multiset(line.commands[..last]), multiset{line.commands[last]}, multiset(line.requests),
            multiset(line.sent));
  }

  lemma LastMoves(queue: seq<Frame>, sent: seq<Frame>)
    requires queue != []
    ensures var last := |queue| - 1;
      && multiset(queue) == multiset(queue[..last]) + multiset{queue[last]}
      && multiset(sent + [queue[last]]) == multiset(sent) + multiset{queue[last]}
  {
    assert queue == queue[..|queue| - 1] + [queue[|queue| - 1]];
  }

  lemma Shuffle(front: multiset<Frame>, last: multiset<Frame>, others: multiset<Frame>, sent: multiset<Frame>)
    ensures front + others + (sent + last) == front + last + others + sent
    ensures others + front + (sent + last) == others + (front + last) + sent
  {}

  // ----- Draining -----

  function Rounds(events: seq<Event>): nat {
    if events == [] then 0
    else Rounds(events[..|events| - 1]) + (if events[|events| - 1].SendRound? then 1 else 0)
  }

  predicate OnlySendsAndDecodes(events: seq<Event>) {
    forall i :: 0 <= i < |events| ==> events[i].SendRound? || events[i].Decode?
  }

  /** k send rounds send the first k frames of a channel's order, whatever arrives meanwhile. */
  lemma {:induction false} RoundsSendInOrder(line: Line, events: seq<Event>, c: nat)
    requires OnlySendsAndDecodes(events)
    ensures var after, k := Replay(line, events, c), MinNat(Rounds(events), line.FrameCount());
      && after.sent == line.sent + line.Order()[..k]
      && after.Order() == line.Order()[k..]
      && after.netLost == line.netLost
  {
    hide Apply, Line.Order;
    if events != [] {
      RoundsSendInOrder(line, events[..|events| - 1], c);
      var before, last := Replay(line, events[..|events| - 1], c), events[|events| - 1];
      if last.SendRound? {
        RoundSendsFirst(before, c);
      } else {
        DecodeKeepsQueues(before, last, c);
      }
    }
  }

  lemma DecodeKeepsQueues(line: Line, e: Event, c: nat)
    requires e.Decode?
    ensures var after := Apply(line, e, c);
      after.Order() == line.Order() && after.sent == line.sent && after.netLost == line.netLost
  {}

  /** A send round sends the first frame of the order, if there is one. */
  lemma RoundSendsFirst(line: Line, c: nat)
    ensures var after := Apply(line, SendRound, c);
      && after.netLost == line.netLost
      && (line.Order() == [] ==> after == line)
      && (line.Order() != [] ==> after.sent == line.sent + [line.Order()[0]] && after.Order() == line.Order()[1..])
  {}

  // ----- How many rounds a cycle has -----

  /** Rounds of the send loop for a span of nanoseconds shared between n frames: the clock advances by span/n. */
  function CycleRounds(span: int, n: nat): nat
    requires 0 < n && (span <= 0 || n <= span)
  {
    if span <= 0 then 0
    else
      var step := span / n;
      (span + step - 1) / step
  }

  /** Nanoseconds left after k rounds. */
  function Left(span: int, n: nat, k: nat): int
    requires 0 < n
  {
    span - k * (span / n)
  }

  lemma StepIsPositive(span: int, n: nat)
    requires 0 < n <= span
    ensures 1 <= span / n && span / n * n <= span
  {
    DivMod(span, n);
    if span / n <= 0 { LessTimes(span / n, 0, n); }
  }

  lemma DivMod(a: int, b: int)
    requires 0 < b
    ensures a == a / b * b + a % b && 0 <= a % b < b
  {}

  /** The loop runs until the time is up and not longer, and at least once for each frame. */
  lemma RoundsAreRight(span: int, n: nat)
    requires 0 < n <= span
    ensures n <= CycleRounds(span, n)
    ensures forall k: nat :: Left(span, n, k) <= 0 <==> CycleRounds(span, n) <= k
  {
    StepIsPositive(span, n);
    var step, rounds := span / n, CycleRounds(span, n);
    RoundedUp(span, step);
    SwapProduct(n, step);
    TooFewRounds(rounds, n, step, span);
    forall k: nat
      ensures Left(span, n, k) <= 0 <==> rounds <= k
    {
      if rounds <= k {
        LessTimes(rounds, k, step);
      } else {
        LessTimes(k, rounds - 1, step);
        OneLess(rounds, step);
      }
    }
  }

  /** Dividing and rounding up. */
  lemma RoundedUp(span: int, step: int)
    requires 0 < step
    ensures var rounds := (span + step - 1) / step; span <= rounds * step < span + step
  {
    DivMod(span + step - 1, step);
  }

  lemma SwapProduct(a: int, b: int)
    ensures a * b == b * a
  {}

  lemma OneLess(a: int, c: int)
    ensures (a - 1) * c == a * c - c
  {}

  lemma TooFewRounds(rounds: int, n: int, step: int, span: int)
    requires 0 < step && n * step <= span <= rounds * step
    ensures n <= rounds
  {
    if rounds < n {
      LessTimes(rounds, n - 1, step);
      OneLess(n, step);
    }
  }

  lemma LessTimes(a: int, b: int, c: int)
    requires a <= b && 0 <= c
    ensures a * c <= b * c
  {
    assert 0 <= (b - a) * c;
  }

  // ----- A whole cycle -----

  type Bus = seq<Line>

  function Applied(bus: Bus, events: seq<Event>): (after: Bus)
    ensures |after| == |bus|
  {
    seq(|bus|, c requires 0 <= c < |bus| => Replay(bus[c], events, c))
  }

  lemma AppliedMore(bus: Bus, first: seq<Event>, second: seq<Event>)
    ensures Applied(bus, first + second) == Applied(Applied(bus, first), second)
  {
    forall c | 0 <= c < |bus|
      ensures Replay(bus[c], first + second, c) == Replay(Replay(bus[c], first, c), second, c)
    {
      ReplayConcat(bus[c], first, second, c);
    }
  }

  lemma AppliedOnce(bus: Bus, e: Event)
    ensures forall c :: 0 <= c < |bus| ==> Applied(bus, [e])[c] == Apply(bus[c], e, c)
  {
    assert [e][..0] == [];
    forall c | 0 <= c < |bus|
      ensures Applied(bus, [e])[c] == Apply(bus[c], e, c)
    {
      assert Replay(bus[c], [], c) == bus[c];
    }
  }

  /** The largest frame count among the first k channels. */
  function MaxCount(bus: Bus, k: nat): (n: nat)
    requires k <= |bus|
    ensures forall c :: 0 <= c < k ==> bus[c].FrameCount() <= n
    ensures 0 < n ==> exists c :: 0 <= c < k && bus[c].FrameCount() == n
  {
    if k == 0 then 0
    else
      var before := MaxCount(bus, k - 1);
      if before < bus[k - 1].FrameCount() then bus[k - 1].FrameCount() else before
  }

  /** The largest frame expectation among the first k channels, or 0. */
  function MaxExpectation(bus: Bus, k: nat): (n: nat)
    requires k <= |bus|
    ensures forall c :: 0 <= c < k ==> bus[c].FrameExpectation() <= n
    ensures 0 < n ==> exists c :: 0 <= c < k && bus[c].FrameExpectation() == n
  {
    if k == 0 then 0
    else
      var before := MaxExpectation(bus, k - 1);
      if before < bus[k - 1].FrameExpectation() then bus[k - 1].FrameExpectation() else before
  }

  /** One round of the send loop: whether sending fails, the channels that frames arrive on while it waits, and whether
      the wait fails. */
  datatype Slot = Slot(sendFails: bool, arrivals: seq<nat>, waitFails: bool)

  /** A round beyond those given is quiet. */
  function SlotAt(slots: seq<Slot>, i: nat): Slot {
    if i < |slots| then slots[i] else Slot(false, [], false)
  }

  /** Frames arrive on channels that exist. */
  predicate Physical(slots: seq<Slot>, channels: nat) {
    forall i, j :: 0 <= i < |slots| && 0 <= j < |slots[i].arrivals| ==> slots[i].arrivals[j] < channels
  }

  function Arrivals(channels: seq<nat>): (events: seq<Event>)
    ensures |events| == |channels| && OnlySendsAndDecodes(events)
  {
    seq(|channels|, i requires 0 <= i < |channels| => Decode(channels[i]))
  }

  /** What one device adds to a channel. */
  datatype Update = Update(frame: Frame, channel: nat, expected: nat)

  function Additions(updates: seq<Update>): (events: seq<Event>)
    ensures |events| == |updates|
  {
    seq(|updates|, i requires 0 <= i < |updates| => Add(updates[i].frame, updates[i].channel, updates[i].expected))
  }

  /** What a cycle, or a part of it, reports and does. */
  datatype Cycle = Cycle(okay: bool, error: bool, events: seq<Event>)

  /** One round of the send loop. A failure to send leaves the frames taken from their queues. */
  function Round(slot: Slot): (round: Cycle)
    ensures round.error == !round.okay
  {
    if slot.sendFails then Cycle(false, true, [SendRound])
    else Cycle(!slot.waitFails, slot.waitFails, [SendRound] + Arrivals(slot.arrivals))
  }

  /** The send loop's rounds from i on, up to the first failure. */
  function Loop(slots: seq<Slot>, i: nat, rounds: nat): Cycle
    requires i <= rounds
    decreases rounds - i
  {
    if i == rounds then Cycle(true, false, [])
    else
      var round := Round(SlotAt(slots, i));
      if !round.okay then round
      else
        var rest := Loop(slots, i + 1, rounds);
        rest.(events := round.events + rest.events)
  }

  /** The expected transfer does not fit the bit rate and the deadline has passed. */
  predicate Overdue(expectation: nat, bitrate: real, diff: real) {
    diff < 0.0 && (expectation * FRAME_BITS) as real > bitrate * diff
  }

  /** A cycle whose deadline is span nanoseconds away is skipped. */
  predicate Skips(bus: Bus, bitrate: real, span: int) {
    Overdue(MaxExpectation(bus, |bus|), bitrate, span as real / BILLION as real)
  }

  /** The channels once the devices have added their frames. */
  function Updated(bus: Bus, updates: seq<Update>): (after: Bus)
    ensures |after| == |bus|
  {
    Applied(bus, Additions(updates))
  }

  function Fullest(bus: Bus, updates: seq<Update>): nat {
    MaxCount(Updated(bus, updates), |bus|)
  }

  /** Some round of the send loop would fail. */
  predicate Fails(slots: seq<Slot>) {
    exists i :: 0 <= i < |slots| && !Round(slots[i]).okay
  }

  /** The send loop comes to an end, by the clock or by a failure. */
  predicate LoopEnds(span: int, n: nat, slots: seq<Slot>) {
    span <= 0 || n <= span || Fails(slots)
  }

  /** Rounds of the send loop that are enough to see its end. */
  function LoopLength(span: int, n: nat, slots: seq<Slot>): nat
    requires 0 < n && LoopEnds(span, n, slots)
  {
    if span <= 0 || n <= span then CycleRounds(span, n) else |slots|
  }

  /** The cycle comes to an end. */
  predicate Ends(bus: Bus, bitrate: real, span: int, updates: seq<Update>, slots: seq<Slot>) {
    Skips(bus, bitrate, span) || LoopEnds(span, Fullest(bus, updates), slots)
  }

  /** A cycle whose deadline is span nanoseconds away. */
  function CycleOf(bus: Bus, bitrate: real, span: int, updates: seq<Update>, slots: seq<Slot>): Cycle
    requires Ends(bus, bitrate, span, updates, slots)
  {
    if Skips(bus, bitrate, span) then Cycle(true, false, [])
    else
      var added, n := Additions(updates), Fullest(bus, updates);
      if n == 0 then Cycle(true, SlotAt(slots, 0).waitFails, added + Arrivals(SlotAt(slots, 0).arrivals) + [Reset])
      else
        var loop := Loop(slots, 0, LoopLength(span, n, slots));
        loop.(events := added + loop.events + (if loop.okay then [Reset] else []))
  }

  lemma {:induction false} LoopRounds(slots: seq<Slot>, i: nat, rounds: nat)
    requires i <= rounds
    ensures OnlySendsAndDecodes(Loop(slots, i, rounds).events)
    ensures Loop(slots, i, rounds).okay ==> Rounds(Loop(slots, i, rounds).events) == rounds - i
    decreases rounds - i
  {
    if i < rounds {
      LoopRounds(slots, i + 1, rounds);
      var arrivals := SlotAt(slots, i).arrivals;
      RoundsAdd([SendRound] + Arrivals(arrivals), Loop(slots, i + 1, rounds).events);
      RoundsAdd([SendRound], Arrivals(arrivals));
      ArrivalsHaveNoRounds(arrivals);
      assert [SendRound][..0] == [];
    }
  }

  lemma {:induction false} RoundsAdd(first: seq<Event>, second: seq<Event>)
    ensures Rounds(first + second) == Rounds(first) + Rounds(second)
  {
    if second == [] {
      assert first + second == first;
    } else {
      RoundsAdd(first, second[..|second| - 1]);
      assert (first + second)[..|first + second| - 1] == first + second[..|second| - 1];
    }
  }

  lemma {:induction false} ArrivalsHaveNoRounds(channels: seq<nat>)
    ensures Rounds(Arrivals(channels)) == 0
  {
    if channels != [] {
      ArrivalsHaveNoRounds(channels[..|channels| - 1]);
      assert Arrivals(channels)[..|channels| - 1] == Arrivals(channels[..|channels| - 1]);
    }
  }

  /** The rounds of a loop that has time for every frame empty a channel, in order. */
  lemma LoopDrains(line: Line, c: nat, span: int, n: nat, slots: seq<Slot>)
    requires 0 < n <= span && line.FrameCount() <= n
    requires Loop(slots, 0, CycleRounds(span, n)).okay
    ensures var after := Replay(line, Loop(slots, 0, CycleRounds(span, n)).events, c);
      && after.requests == [] && after.commands == []
      && after.sent == line.sent + Reversed(line.requests) + Reversed(line.commands)
      && after.netLost == line.netLost
  {
    var events := Loop(slots, 0, CycleRounds(span, n)).events;
    RoundsAreRight(span, n);
    LoopRounds(slots, 0, CycleRounds(span, n));
    RoundsSendInOrder(line, events, c);
    assert line.Order()[..line.FrameCount()] == line.Order();
    assert |Replay(line, events, c).Order()| == 0;
    assert line.sent + line.Order() == line.sent + Reversed(line.requests) + Reversed(line.commands);
  }

  /** In a cycle that is neither skipped nor failed, whose deadline is ahead, every channel sends each of its frames
      exactly once, requests before commands and the latest first, and ends empty; and the replies that have not come
      are counted lost. */
  lemma {:induction false} CycleDrains(bus: Bus, bitrate: real, span: int, updates: seq<Update>, slots: seq<Slot>,
                                       c: nat)
    requires c < |bus| && Ends(bus, bitrate, span, updates, slots)
    requires 0 < span && CycleOf(bus, bitrate, span, updates, slots).okay
    ensures var queued := Updated(bus, updates)[c];
      var after := Replay(bus[c], CycleOf(bus, bitrate, span, updates, slots).events, c);
      && after.requests == [] && after.commands == []
      && after.sent == queued.sent + Reversed(queued.requests) + Reversed(queued.commands)
      && after.expectation == 0
  {
    hide Apply, Loop, Fullest;
    var added, n := Additions(updates), Fullest(bus, updates);
    var queued := Updated(bus, updates)[c];
    if n == 0 {
      var arrivals := SlotAt(slots, 0).arrivals;
      ThreeParts(bus[c], added, Arrivals(arrivals), c);
      CountWithin(bus, updates, c);
      DecodesKeepQueues(queued, arrivals, c);
    } else {
      var loop := Loop(slots, 0, LoopLength(span, n, slots));
      if span < n {
        FailureAwaits(span, n, slots);
        FailingIsNotOkay(slots, 0, |slots|);
      }
      ThreeParts(bus[c], added, loop.events, c);
      CountWithin(bus, updates, c);
      LoopDrains(queued, c, span, n, slots);
    }
  }

  lemma {:induction false} FailingIsNotOkay(slots: seq<Slot>, i: nat, rounds: nat)
    requires i <= rounds && exists k :: i <= k < rounds && !Round(SlotAt(slots, k)).okay
    ensures !Loop(slots, i, rounds).okay
    decreases rounds - i
  {
    if Round(SlotAt(slots, i)).okay {
      FailingIsNotOkay(slots, i + 1, rounds);
    }
  }

  lemma CountWithin(bus: Bus, updates: seq<Update>, c: nat)
    requires c < |bus|
    ensures Updated(bus, updates)[c].FrameCount() <= Fullest(bus, updates)
  {}

  /** The effect of a cycle's three parts: the additions, the sends and arrivals, and the reset. */
  lemma ThreeParts(line: Line, added: seq<Event>, middle: seq<Event>, c: nat)
    ensures Replay(line, added + middle + [Reset], c) == Apply(Replay(Replay(line, added, c), middle, c), Reset, c)
    ensures var last := Replay(line, added + middle + [Reset], c);
      var before := Replay(Replay(line, added, c), middle, c);
      && last.requests == before.requests && last.commands == before.commands && last.sent == before.sent
      && last.expectation == 0
  {
    ReplayConcat(line, added, middle, c);
    assert (added + middle + [Reset])[..|added + middle|] == added + middle;
  }

  lemma {:induction false} DecodesKeepQueues(line: Line, channels: seq<nat>, c: nat)
    ensures var after := Replay(line, Arrivals(channels), c);
      after.requests == line.requests && after.commands == line.commands && after.sent == line.sent
  {
    if channels != [] {
      DecodesKeepQueues(line, channels[..|channels| - 1], c);
      assert Arrivals(channels)[..|channels| - 1] == Arrivals(channels[..|channels| - 1]);
    }
  }

  /** A cycle that is neither skipped nor failed leaves every queue empty exactly when the devices' additions left
      nothing to send, or the deadline is ahead. */
  lemma EmptyExactlyWhenTimeAhead(bus: Bus, bitrate: real, span: int, updates: seq<Update>, slots: seq<Slot>)
    requires Ends(bus, bitrate, span, updates, slots) && !Skips(bus, bitrate, span)
    requires CycleOf(bus, bitrate, span, updates, slots).okay
    ensures (forall c :: 0 <= c < |bus| ==>
        Replay(bus[c], CycleOf(bus, bitrate, span, updates, slots).events, c).FrameCount() == 0)
      <==> Fullest(bus, updates) == 0 || 0 < span
  {
    hide Apply, Fullest, Skips;
    var cycle := CycleOf(bus, bitrate, span, updates, slots);
    var n := Fullest(bus, updates);
    if 0 < span {
      forall c | 0 <= c < |bus|
        ensures Replay(bus[c], cycle.events, c).FrameCount() == 0
      {
        CycleDrains(bus, bitrate, span, updates, slots, c);
      }
    } else if 0 < n {
      LateCycleSendsNothing(bus, bitrate, span, updates, slots);
    } else {
      QuietCycleStaysQuiet(bus, bitrate, span, updates, slots);
    }
  }

  lemma LateCycleSendsNothing(bus: Bus, bitrate: real, span: int, updates: seq<Update>, slots: seq<Slot>)
    requires span <= 0 && !Skips(bus, bitrate, span) && 0 < Fullest(bus, updates)
    ensures exists c ::
      0 <= c < |bus| && Replay(bus[c], CycleOf(bus, bitrate, span, updates, slots).events, c).FrameCount() != 0
  {
    var c :| 0 <= c < |bus| && Updated(bus, updates)[c].FrameCount() == Fullest(bus, updates);
    ReplayConcat(bus[c], Additions(updates), [Reset], c);
    assert [Reset][..0] == [];
    assert CycleOf(bus, bitrate, span, updates, slots).events == Additions(updates) + [Reset];
  }

  lemma QuietCycleStaysQuiet(bus: Bus, bitrate: real, span: int, updates: seq<Update>, slots: seq<Slot>)
    requires span <= 0 && !Skips(bus, bitrate, span) && Fullest(bus, updates) == 0
    ensures forall c :: 0 <= c < |bus| ==>
      Replay(bus[c], CycleOf(bus, bitrate, span, updates, slots).events, c).FrameCount() == 0
  {
    var added, channels := Additions(updates), SlotAt(slots, 0).arrivals;
    forall c | 0 <= c < |bus|
      ensures Replay(bus[c], CycleOf(bus, bitrate, span, updates, slots).events, c).FrameCount() == 0
    {
      ReplayConcat(bus[c], added + Arrivals(channels), [Reset], c);
      ReplayConcat(bus[c], added, Arrivals(channels), c);
      DecodesKeepQueues(Updated(bus, updates)[c], channels, c);
      assert [Reset][..0] == [];
    }
  }

  // ----- The pump -----

  lemma AppliedNone(bus: Bus)
    ensures Applied(bus, []) == bus
  {}

  /** The test the pump makes is the one that defines a skipped cycle. */
  lemma SkipIsSkips(bus: Bus, bitrate: real, deadline: Clock, now: Clock)
    ensures Skips(bus, bitrate, Total(deadline) - Total(now))
      == Overdue(MaxExpectation(bus, |bus|), bitrate, Difference(deadline, now))
  {
    hide Total, Difference, MaxExpectation, Overdue;
    DifferenceIsTotal(deadline, now);
    assert Difference(deadline, now) == (Total(deadline) - Total(now)) as real / BILLION as real;
  }

  /** The send loop's clock after k rounds. */
  function TimeAfter(now: Clock, share: real, k: nat): Clock {
    if k == 0 then now else Incremented(TimeAfter(now, share, k - 1), share)
  }

  lemma {:induction false} TimeAfterIsLeft(deadline: Clock, now: Clock, n: nat, k: nat)
    requires 0 < n && Total(now) <= Total(deadline)
    ensures Total(deadline) - Total(TimeAfter(now, Difference(deadline, now) / n as real, k))
      == Left(Total(deadline) - Total(now), n, k)
  {
    hide Total, Difference, Incremented, Left;
    if k == 0 {
      NothingPassed(Total(deadline) - Total(now), n);
    } else {
      var diff := Difference(deadline, now);
      TimeAfterIsLeft(deadline, now, n, k - 1);
      LeftAdvances(deadline, now, TimeAfter(now, diff / n as real, k - 1), diff, n, k - 1);
    }
  }

  /** Over any number of increments nothing is lost but the fraction of a nanosecond that each of them drops: the
      deadline of the k-th cycle depends on the first one alone, whenever the cycles were run. */
  lemma {:induction false} IncrementsAddUp(start: Clock, step: real, k: nat)
    ensures Total(TimeAfter(start, step, k)) == Total(start) + k * Nanoseconds(step)
  {
    hide Total, Incremented, Nanoseconds;
    if 0 < k {
      IncrementsAddUp(start, step, k - 1);
      IncrementIsExact(TimeAfter(start, step, k - 1), step);
      OneLess(k, Nanoseconds(step));
    }
  }

  lemma NothingPassed(span: int, n: nat)
    requires 0 < n
    ensures Left(span, n, 0) == span
  {}

  /** One round takes the same share of the time left, however short. */
  lemma LeftAdvances(deadline: Clock, now: Clock, time: Clock, diff: real, n: nat, i: nat)
    requires 0 < n && Total(now) <= Total(deadline) && diff == Difference(deadline, now)
    requires Total(deadline) - Total(time) == Left(Total(deadline) - Total(now), n, i)
    ensures Total(deadline) - Total(Incremented(time, diff / n as real)) == Left(Total(deadline) - Total(now), n, i + 1)
  {
    var span := Total(deadline) - Total(now);
    hide Difference, Incremented, Nanoseconds, Total;
    DifferenceIsTotal(deadline, now);
    ShareIsQuotient(span, diff, n);
    IncrementIsExact(time, diff / n as real);
    OneLess(i + 1, span / n);
  }

  /** The clock of the send loop reaches the deadline after some number of rounds, or a round fails, exactly when
      there is no time left to begin with, or at least a nanosecond for each frame, or a round that fails. */
  lemma LoopEndsIff(deadline: Clock, now: Clock, n: nat, slots: seq<Slot>)
    requires 0 < n
    ensures
      (exists k: nat :: StopsAt(deadline, TimeAfter(now, Difference(deadline, now) / n as real, k), SlotAt(slots, k)))
      <==> LoopEnds(Total(deadline) - Total(now), n, slots)
  {
    hide Difference, Incremented, Total, Round;
    var span, share := Total(deadline) - Total(now), Difference(deadline, now) / n as real;
    if span <= 0 {
      DifferenceIsTotal(deadline, now);
      assert StopsAt(deadline, TimeAfter(now, share, 0), SlotAt(slots, 0));
    } else if n <= span {
      var k := CycleRounds(span, n);
      RoundsAreRight(span, n);
      TimeAfterIsLeft(deadline, now, n, k);
      DifferenceIsTotal(deadline, TimeAfter(now, share, k));
      assert StopsAt(deadline, TimeAfter(now, share, k), SlotAt(slots, k));
    } else if Fails(slots) {
      var k :| 0 <= k < |slots| && !Round(slots[k]).okay;
      assert StopsAt(deadline, TimeAfter(now, share, k), SlotAt(slots, k));
    } else {
      forall k: nat
        ensures !StopsAt(deadline, TimeAfter(now, share, k), SlotAt(slots, k))
      {
        StuckGoesOn(deadline, now, n, k);
        QuietIsOkay(slots, k);
      }
    }
  }

  /** The loop does not go on from here: the time is up, or the round fails. */
  predicate StopsAt(deadline: Clock, time: Clock, slot: Slot) {
    Difference(deadline, time) <= 0.0 || !Round(slot).okay
  }

  lemma QuietIsOkay(slots: seq<Slot>, k: nat)
    requires !Fails(slots)
    ensures Round(SlotAt(slots, k)).okay
  {}

  /** With less than a nanosecond for each frame the clock never moves. */
  lemma StuckGoesOn(deadline: Clock, now: Clock, n: nat, k: nat)
    requires 0 < Total(deadline) - Total(now) < n
    ensures Difference(deadline, TimeAfter(now, Difference(deadline, now) / n as real, k)) > 0.0
  {
    hide Difference, Incremented, Total, TimeAfter;
    var span := Total(deadline) - Total(now);
    TimeAfterIsLeft(deadline, now, n, k);
    DifferenceIsTotal(deadline, TimeAfter(now, Difference(deadline, now) / n as real, k));
    ShortShare(span, n, k);
  }

  lemma ShortShare(span: int, n: nat, k: nat)
    requires 0 < span < n
    ensures Left(span, n, k) == span
  {
    assert span / n == 0;
  }

  /** One nanosecond to send two frames in: the loop never ends. */
  lemma OneNanosecondForTwoFrames(k: nat)
    ensures Difference(Clock(0, 1), TimeAfter(Clock(0, 0), Difference(Clock(0, 1), Clock(0, 0)) / 2 as real, k)) > 0.0
    ensures !LoopEnds(1, 2, [])
  {
    StuckGoesOn(Clock(0, 1), Clock(0, 0), 2, k);
  }

  /** The loop's condition, at the start and from one round to the next. */
  lemma LoopStarts(deadline: Clock, now: Clock, n: nat, slots: seq<Slot>)
    requires 0 < n && LoopEnds(Total(deadline) - Total(now), n, slots)
    ensures var span := Total(deadline) - Total(now);
      && Left(span, n, 0) == span
      && (0 < LoopLength(span, n, slots) <==> Difference(deadline, now) > 0.0)
      && (0 < LoopLength(span, n, slots) <==> 0 < span)
  {
    DifferenceIsTotal(deadline, now);
    if 0 < n <= Total(deadline) - Total(now) { RoundsAreRight(Total(deadline) - Total(now), n); }
  }

  /** When the loop is stuck, a failure is still to come. */
  predicate Awaits(span: int, n: nat, slots: seq<Slot>, i: nat) {
    0 < span < n ==> exists k :: i <= k < |slots| && !Round(SlotAt(slots, k)).okay
  }

  lemma FailureAwaits(span: int, n: nat, slots: seq<Slot>)
    requires LoopEnds(span, n, slots)
    ensures Awaits(span, n, slots, 0)
  {
    if 0 < span < n {
      var k :| 0 <= k < |slots| && !Round(slots[k]).okay;
      assert !Round(SlotAt(slots, k)).okay;
    }
  }

  lemma LoopAdvances(deadline: Clock, now: Clock, time: Clock, diff: real, n: nat, slots: seq<Slot>, i: nat)
    requires 0 < n && 0 < Total(deadline) - Total(now) && LoopEnds(Total(deadline) - Total(now), n, slots)
    requires diff == Difference(deadline, now)
    requires Total(deadline) - Total(time) == Left(Total(deadline) - Total(now), n, i)
    requires Awaits(Total(deadline) - Total(now), n, slots, i) && Round(SlotAt(slots, i)).okay
    ensures var span, next := Total(deadline) - Total(now), Incremented(time, diff / n as real);
      && Total(deadline) - Total(next) == Left(span, n, i + 1)
      && (Difference(deadline, next) > 0.0 <==> i + 1 < LoopLength(span, n, slots))
      && Awaits(span, n, slots, i + 1)
  {
    var span := Total(deadline) - Total(now);
    hide Difference, Incremented, Nanoseconds, Total, Round, CycleRounds, Left;
    LeftAdvances(deadline, now, time, diff, n, i);
    DifferenceIsTotal(deadline, Incremented(time, diff / n as real));
    if n <= span {
      RoundsAreRight(span, n);
    } else {
      ShortShare(span, n, i + 1);
    }
  }

  class CanPump {
    var channels: Bus
    var initialized: bool
    var error: bool
    var firstTick: bool
    var deadline: Clock
    const bitrate: real
    const timestep: real

    constructor (frequency: real, bitrate: real, count: nat)
      requires frequency != 0.0
      ensures channels == seq(count, i => Line(0, 0, [], [], []))
      ensures !initialized && !error && firstTick && deadline == Clock(0, 0)
      ensures this.bitrate == bitrate && timestep == 1.0 / frequency
    {
      channels := seq(count, i => Line(0, 0, [], [], []));
      initialized, error, firstTick, deadline := false, false, true, Clock(0, 0);
      this.bitrate, timestep := bitrate, 1.0 / frequency;
    }

    /** The deadline of the next cycle. */
    function Due(start: Clock): Clock
      reads this
    {
      Incremented(if firstTick then start else deadline, timestep)
    }

    /** A frame for a channel that does not exist is dropped. */
    method AddFrame(frame: Frame, channel: nat, expected: nat)
      modifies this`channels
      ensures channels == Applied(old(channels), [Add(frame, channel, expected)])
    {
      AppliedOnce(channels, Add(frame, channel, expected));
      if |channels| <= channel { return; }
      var handle := channels[channel];
      if expected == 0 {
        handle := handle.(commands := handle.commands + [frame]);
      } else {
        handle := handle.(expectation := handle.expectation + expected, requests := handle.requests + [frame]);
      }
      channels := channels[channel := handle];
    }

    /** Every channel sends the last of its requests, or the last of its commands when it has no requests. */
    method SendNextFrames()
      modifies this`channels
      ensures channels == Applied(old(channels), [SendRound])
    {
      AppliedOnce(channels, SendRound);
      for i := 0 to |channels|
        invariant |channels| == |old(channels)|
        invariant forall c :: 0 <= c < i ==> channels[c] == Apply(old(channels)[c], SendRound, c)
        invariant forall c :: i <= c < |channels| ==> channels[c] == old(channels)[c]
      {
        var handle := channels[i];
        if 0 < |handle.requests| {
          var last := |handle.requests| - 1;
          channels := channels[i := handle.(requests := handle.requests[..last],
                                            sent := handle.sent + [handle.requests[last]])];
        } else if 0 < |handle.commands| {
          var last := |handle.commands| - 1;
          channels := channels[i := handle.(commands := handle.commands[..last],
                                            sent := handle.sent + [handle.commands[last]])];
        }
      }
    }

    method DecodeFrame(channel: nat)
      requires channel < |channels|
      modifies this`channels
      ensures channels == Applied(old(channels), [Decode(channel)])
    {
      AppliedOnce(channels, Decode(channel));
      channels := channels[channel := channels[channel].(expectation := channels[channel].expectation - 1)];
    }

    /** The frames that arrive during one wait. */
    method WaitOnNextFrames(arrivals: seq<nat>)
      requires forall i :: 0 <= i < |arrivals| ==> arrivals[i] < |channels|
      modifies this`channels
      ensures channels == Applied(old(channels), Arrivals(arrivals))
    {
      var events := Arrivals(arrivals);
      assert Applied(channels, []) == channels;
      for i := 0 to |arrivals|
        invariant channels == Applied(old(channels), events[..i])
      {
        DecodeFrame(arrivals[i]);
        AppliedMore(old(channels), events[..i], [events[i]]);
        assert events[..i + 1] == events[..i] + [events[i]];
      }
      assert events[..|arrivals|] == events;
    }

    method UpdateDevices(updates: seq<Update>)
      modifies this`channels
      ensures channels == Updated(old(channels), updates)
    {
      var events := Additions(updates);
      assert Applied(channels, []) == channels;
      for i := 0 to |updates|
        invariant channels == Applied(old(channels), events[..i])
      {
        AddFrame(updates[i].frame, updates[i].channel, updates[i].expected);
        AppliedMore(old(channels), events[..i], [events[i]]);
        assert events[..i + 1] == events[..i] + [events[i]];
      }
      assert events[..|updates|] == events;
    }

    method ResetCounters()
      modifies this`channels
      ensures channels == Applied(old(channels), [Reset])
    {
      AppliedOnce(channels, Reset);
      for i := 0 to |channels|
        invariant |channels| == |old(channels)|
        invariant forall c :: 0 <= c < i ==> channels[c] == Apply(old(channels)[c], Reset, c)
        invariant forall c :: i <= c < |channels| ==> channels[c] == old(channels)[c]
      {
        var handle := channels[i];
        channels := channels[i := handle.(netLost := handle.netLost + handle.expectation, expectation := 0)];
      }
    }

    method GetMaxFrameCount() returns (most: int)
      ensures most == MaxCount(channels, |channels|)
    {
      most := 0;
      for i := 0 to |channels|
        invariant most == MaxCount(channels, i)
      {
        if most < channels[i].FrameCount() { most := channels[i].FrameCount(); }
      }
    }

    method GetMaxFrameExpectation() returns (most: int)
      ensures most == MaxExpectation(channels, |channels|)
    {
      most := 0;
      for i := 0 to |channels|
        invariant most == MaxExpectation(channels, i)
      {
        if most < channels[i].FrameExpectation() { most := channels[i].FrameExpectation(); }
      }
    }

    method SendAndWait(slot: Slot) returns (okay: bool)
      requires !error && Physical([slot], |channels|)
      modifies this`channels, this`error
      ensures channels == Applied(old(channels), Round(slot).events)
      ensures okay == Round(slot).okay && error == Round(slot).error
    {
      ghost var before := channels;
      SendNextFrames();
      if slot.sendFails {
        error := true;
        return false;
      }
      assert forall j :: 0 <= j < |slot.arrivals| ==> [slot][0].arrivals[j] < |channels|;
      WaitOnNextFrames(slot.arrivals);
      AppliedMore(before, [SendRound], Arrivals(slot.arrivals));
      error := slot.waitFails;
      return !error;
    }

    /** The send loop of a cycle: from now to the deadline, in steps of the n-th part of the time between them. */
    method SendUntilDeadline(now: Clock, diff: real, n: nat, slots: seq<Slot>) returns (okay: bool)
      requires !error && 0 < n && Physical(slots, |channels|)
      requires LoopEnds(Total(deadline) - Total(now), n, slots)
      requires diff == Difference(deadline, now)
      modifies this`channels, this`error
      ensures var loop := Loop(slots, 0, LoopLength(Total(deadline) - Total(now), n, slots));
        channels == Applied(old(channels), loop.events) && okay == loop.okay && error == loop.error
    {
      hide Apply, Replay, Applied, Round, Total, Incremented, Difference, LoopLength, LoopEnds, Left, Awaits;
      ghost var span, rounds := Total(deadline) - Total(now), LoopLength(Total(deadline) - Total(now), n, slots);
      ghost var before, sent: seq<Event> := channels, [];
      var time, i := now, 0;
      AppliedNone(channels);
      LoopStarts(deadline, now, n, slots);
      FailureAwaits(span, n, slots);
      while Difference(deadline, time) > 0.0
        invariant !error && i <= rounds && channels == Applied(before, sent)
        invariant Total(deadline) - Total(time) == Left(span, n, i)
        invariant Difference(deadline, time) > 0.0 <==> i < rounds
        invariant Awaits(span, n, slots, i)
        invariant Loop(slots, 0, rounds) == Loop(slots, i, rounds).(events := sent + Loop(slots, i, rounds).events)
        decreases rounds - i
      {
        var slot := SlotAt(slots, i);
        okay := SendAndWait(slot);
        AppliedMore(before, sent, Round(slot).events);
        sent := sent + Round(slot).events;
        if !okay { return; }
        LoopAdvances(deadline, now, time, diff, n, slots, i);
        time := Incremented(time, diff / n as real);
        i := i + 1;
      }
      assert sent + [] == sent;
      return true;
    }

    /** A cycle once it is known not to be skipped. */
    method UpdateAndSend(now: Clock, diff: real, updates: seq<Update>, slots: seq<Slot>) returns (okay: bool)
      requires !error && Physical(slots, |channels|) && diff == Difference(deadline, now)
      requires !Skips(channels, bitrate, Total(deadline) - Total(now))
      requires Ends(channels, bitrate, Total(deadline) - Total(now), updates, slots)
      modifies this`channels, this`error
      ensures var cycle := CycleOf(old(channels), bitrate, Total(deadline) - Total(now), updates, slots);
        channels == Applied(old(channels), cycle.events) && okay == cycle.okay && error == cycle.error
    {
      hide Apply, Replay, Applied, Skips, Total, Difference, CycleRounds, LoopLength;
      ghost var before, added := channels, Additions(updates);
      UpdateDevices(updates);
      var n := GetMaxFrameCount();
      if 0 < n {
        ghost var loop := Loop(slots, 0, LoopLength(Total(deadline) - Total(now), n, slots));
        okay := SendUntilDeadline(now, diff, n, slots);
        AppliedMore(before, added, loop.events);
        assert added + loop.events + [] == added + loop.events;
        if !okay { return; }
        ResetCounters();
        AppliedMore(before, added + loop.events, [Reset]);
      } else {
        var slot := SlotAt(slots, 0);
        WaitOnNextFrames(slot.arrivals);
        error := slot.waitFails;
        AppliedMore(before, added, Arrivals(slot.arrivals));
        ResetCounters();
        AppliedMore(before, added + Arrivals(slot.arrivals), [Reset]);
      }
      return true;
    }

    /** One cycle. clockWorks and start are the clock's answer on the first tick, and now its answer on every tick. */
    method Pump(clockWorks: bool, start: Clock, now: Clock, updates: seq<Update>, slots: seq<Slot>) returns (okay: bool)
      requires Physical(slots, |channels|)
      requires initialized && !error && (firstTick ==> clockWorks) ==>
        Ends(channels, bitrate, Total(Due(start)) - Total(now), updates, slots)
      modifies this
      ensures initialized == old(initialized)
      ensures !initialized || old(error) || (old(firstTick) && !clockWorks) ==>
        && !okay && channels == old(channels) && error == old(error)
        && firstTick == old(firstTick) && deadline == old(deadline)
      ensures initialized && !old(error) && (old(firstTick) ==> clockWorks) ==>
        var cycle := CycleOf(old(channels), bitrate, Total(old(Due(start))) - Total(now), updates, slots);
        && !firstTick && deadline == old(Due(start))
        && Total(deadline) == Total(if old(firstTick) then start else old(deadline)) + Nanoseconds(timestep)
        && channels == Applied(old(channels), cycle.events) && okay == cycle.okay && error == cycle.error
    {
      hide Apply, Replay, Applied, Skips, Loop, Fullest, MaxExpectation, Total, Difference, CycleRounds, Incremented;
      hide Nanoseconds;
      if !initialized { return false; }
      if error { return false; }
      if firstTick {
        if !clockWorks { return false; }
        deadline := start;
        firstTick := false;
      }
      IncrementIsExact(deadline, timestep);
      deadline := Incremented(deadline, timestep);
      var diff := Difference(deadline, now);
      var expectation := GetMaxFrameExpectation();
      SkipIsSkips(channels, bitrate, deadline, now);
      if (expectation * FRAME_BITS) as real > bitrate * diff {
        if diff < 0.0 {
          AppliedNone(channels);
          return true;
        }
      }
      okay := UpdateAndSend(now, diff, updates, slots);
    }
  }
}
