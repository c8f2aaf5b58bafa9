/** What one cycle of the CAN scheduler does to a channel, in full (HuboCan/src/CanPump.cpp). */
module CanCycles {
  import opened NatArith
  import opened Clocks
  import opened CanBusPump

  // ----- What the devices add -----

  /** The frames for channel c that expect replies, or that do not. */
  function FramesFor(updates: seq<Update>, c: nat, replies: bool): seq<Frame> {
    if updates == [] then []
    else
      var last := updates[|updates| - 1];
      FramesFor(updates[..|updates| - 1], c, replies)
      + (if last.channel == c && (0 < last.expected) == replies then [last.frame] else [])
  }

  /** The replies that the frames for channel c expect. */
  function RepliesFor(updates: seq<Update>, c: nat): nat {
    if updates == [] then 0
    else
      var last := updates[|updates| - 1];
      RepliesFor(updates[..|updates| - 1], c) + (if last.channel == c then last.expected else 0)
  }

  /** The devices' frames are queued in their order: as requests when they expect replies, which are then awaited, and
      as commands otherwise. */
  lemma {:induction false} UpdatesAreQueued(bus: Bus, updates: seq<Update>, c: nat)
    requires c < |bus|
    ensures Updated(bus, updates)[c] == bus[c].(
      requests := bus[c].requests + FramesFor(updates, c, true),
      commands := bus[c].commands + FramesFor(updates, c, false),
      expectation := bus[c].expectation + RepliesFor(updates, c))
  {
    var added := Additions(updates);
    if updates == [] {
      assert bus[c].requests + [] == bus[c].requests && bus[c].commands + [] == bus[c].commands;
    } else {
      var before := updates[..|updates| - 1];
      UpdatesAreQueued(bus, before, c);
      assert added[..|added| - 1] == Additions(before);
      assert Updated(bus, before)[c] == Replay(bus[c], Additions(before), c);
      QueuesGrow(bus[c].requests, FramesFor(before, c, true), updates[|updates| - 1].frame);
      QueuesGrow(bus[c].commands, FramesFor(before, c, false), updates[|updates| - 1].frame);
    }
  }

  lemma QueuesGrow(queue: seq<Frame>, more: seq<Frame>, frame: Frame)
    ensures queue + more + [frame] == queue + (more + [frame])
    ensures queue + (more + []) == queue + more
  {}

  /** The last frame queued is the first one out. */
  lemma {:induction false} ReversedAt<T>(s: seq<T>, k: nat)
    requires k < |s|
    ensures Reversed(s)[k] == s[|s| - 1 - k]
  {
    if 0 < k {
      ReversedAt(s[..|s| - 1], k - 1);
    }
  }

  // ----- What the rounds do -----

  /** Nothing fails in this round. */
  predicate Sound(slot: Slot) {
    !slot.sendFails && !slot.waitFails
  }

  /** The first round that fails. */
  function FirstBad(slots: seq<Slot>, i: nat, rounds: nat): (k: nat)
    requires i <= rounds
    ensures i <= k <= rounds
    ensures forall m :: i <= m < k ==> Sound(SlotAt(slots, m))
    ensures k < rounds ==> !Sound(SlotAt(slots, k))
    decreases rounds - i
  {
    if i < rounds && Sound(SlotAt(slots, i)) then FirstBad(slots, i + 1, rounds) else i
  }

  /** The frames that arrive on channel c in one round. */
  function Came(slot: Slot, c: nat): nat {
    multiset(slot.arrivals)[c]
  }

  /** The frames that arrive on channel c from round i up to round k, which may be the one that fails: nothing is waited
      for when sending fails. */
  function CameBy(slots: seq<Slot>, i: nat, k: nat, rounds: nat, c: nat): nat
    requires i <= k <= rounds
    decreases k - i
  {
    if i < k then Came(SlotAt(slots, i), c) + CameBy(slots, i + 1, k, rounds, c)
    else if k < rounds && !SlotAt(slots, k).sendFails then Came(SlotAt(slots, k), c)
    else 0
  }

  lemma {:induction false} DecodedAdd(first: seq<Event>, second: seq<Event>, c: nat)
    ensures Decoded(first + second, c) == Decoded(first, c) + Decoded(second, c)
  {
    if second == [] {
      assert first + second == first;
    } else {
      DecodedAdd(first, second[..|second| - 1], c);
      assert (first + second)[..|first + second| - 1] == first + second[..|second| - 1];
    }
  }

  lemma {:induction false} ArrivalsAreDecoded(channels: seq<nat>, c: nat)
    ensures Decoded(Arrivals(channels), c) == multiset(channels)[c]
  {
    if channels != [] {
      var before := channels[..|channels| - 1];
      ArrivalsAreDecoded(before, c);
      assert Arrivals(channels)[..|channels| - 1] == Arrivals(before);
      assert channels == before + [channels[|channels| - 1]];
    }
  }

  /** One round sends once, and decodes what arrives unless sending fails. */
  lemma RoundInFull(slot: Slot, c: nat)
    ensures var round := Round(slot);
      && round.okay == Sound(slot) && round.error == !Sound(slot)
      && OnlySendsAndDecodes(round.events) && Rounds(round.events) == 1
      && Decoded(round.events, c) == if slot.sendFails then 0 else Came(slot, c)
  {
    assert [SendRound][..0] == [];
    assert Rounds([SendRound]) == 1 && Decoded([SendRound], c) == 0;
    RoundsAdd([SendRound], Arrivals(slot.arrivals));
    ArrivalsHaveNoRounds(slot.arrivals);
    DecodedAdd([SendRound], Arrivals(slot.arrivals), c);
    ArrivalsAreDecoded(slot.arrivals, c);
  }

  lemma {:induction false} LoopInFull(slots: seq<Slot>, i: nat, rounds: nat, c: nat)
    requires i <= rounds
    ensures var loop := Loop(slots, i, rounds); var bad := FirstBad(slots, i, rounds);
      && (loop.okay <==> bad == rounds) && loop.error == !loop.okay
      && OnlySendsAndDecodes(loop.events)
      && Rounds(loop.events) == bad - i + (if bad < rounds then 1 else 0)
      && Decoded(loop.events, c) == CameBy(slots, i, bad, rounds, c)
    decreases rounds - i
  {
    hide Round, Came;
    if i < rounds {
      var round := Round(SlotAt(slots, i));
      RoundInFull(SlotAt(slots, i), c);
      if round.okay {
        LoopInFull(slots, i + 1, rounds, c);
        RoundsAdd(round.events, Loop(slots, i + 1, rounds).events);
        DecodedAdd(round.events, Loop(slots, i + 1, rounds).events, c);
      }
    }
  }

  lemma {:induction false} ExpectationFalls(line: Line, events: seq<Event>, c: nat)
    requires OnlySendsAndDecodes(events)
    ensures Replay(line, events, c).expectation == line.expectation - Decoded(events, c)
  {
    if events != [] {
      ExpectationFalls(line, events[..|events| - 1], c);
    }
  }

  // ----- A whole cycle -----

  /** The bits of the frames a channel expects to transfer. */
  function ExpectedBits(line: Line): real {
    ((line.expectation + |line.requests| + |line.commands|) * 108) as real
  }

  /** What some channel expects, or nothing at all, is more than these bits. */
  predicate Exceeds(bus: Bus, bits: real) {
    0.0 > bits || exists c :: 0 <= c < |bus| && ExpectedBits(bus[c]) > bits
  }

  /** The deadline has passed, and some channel expects more than the bits of the time left, which are negative for a
      positive bit rate. */
  predicate TooLate(bus: Bus, bitrate: real, span: int) {
    span < 0 && Exceeds(bus, bitrate * (span as real / 1_000_000_000.0))
  }

  /** A cycle does nothing at all exactly when it is too late for it. */
  lemma SkippedIff(bus: Bus, bitrate: real, span: int, updates: seq<Update>, slots: seq<Slot>)
    requires Ends(bus, bitrate, span, updates, slots)
    ensures var cycle := CycleOf(bus, bitrate, span, updates, slots);
      (cycle.okay && cycle.events == []) <==> TooLate(bus, bitrate, span)
    ensures TooLate(bus, bitrate, span) ==> !CycleOf(bus, bitrate, span, updates, slots).error
  {
    SkipsMeans(bus, bitrate, span);
    hide Skips, TooLate, Fullest, Loop, MaxExpectation, Additions, Arrivals;
  }

  lemma SkipsMeans(bus: Bus, bitrate: real, span: int)
    ensures Skips(bus, bitrate, span) <==> TooLate(bus, bitrate, span)
  {
    hide MaxExpectation, Exceeds;
    MostExceeds(bus, bitrate * (span as real / 1_000_000_000.0));
  }

  lemma MostExceeds(bus: Bus, bits: real)
    ensures (MaxExpectation(bus, |bus|) * FRAME_BITS) as real > bits <==> Exceeds(bus, bits)
  {
    hide MaxExpectation;
    var most := MaxExpectation(bus, |bus|);
    if 0 < most {
      var c :| 0 <= c < |bus| && bus[c].FrameExpectation() == most;
      assert ExpectedBits(bus[c]) == (most * FRAME_BITS) as real;
    }
    forall c | 0 <= c < |bus|
      ensures ExpectedBits(bus[c]) <= (most * FRAME_BITS) as real
    {
      assert bus[c].FrameExpectation() <= most;
    }
  }

  /** A cycle that has something to send, in full. It goes on for as long as there is time and nothing fails, each round
      sending the next frame of every channel. Frames that arrive are no longer awaited. At the end the replies that
      are still awaited are lost; after a failure nothing is reset. */
  lemma CycleInFull(bus: Bus, bitrate: real, span: int, updates: seq<Update>, slots: seq<Slot>, c: nat)
    requires c < |bus| && Ends(bus, bitrate, span, updates, slots) && !Skips(bus, bitrate, span)
    requires 0 < Fullest(bus, updates)
    ensures var n, queued := Fullest(bus, updates), Updated(bus, updates)[c];
      var cycle := CycleOf(bus, bitrate, span, updates, slots); var after := Replay(bus[c], cycle.events, c);
      var total := LoopLength(span, n, slots); var bad := FirstBad(slots, 0, total);
      var rounds := MinNat(if bad < total then bad + 1 else bad, queued.FrameCount());
      var awaited := queued.expectation - CameBy(slots, 0, bad, total, c);
      && (cycle.okay <==> bad == total) && cycle.error == !cycle.okay
      && after.sent == queued.sent + queued.Order()[..rounds]
      && after.Order() == queued.Order()[rounds..]
      && after.netLost == queued.netLost + (if cycle.okay then awaited else 0)
      && after.expectation == (if cycle.okay then 0 else awaited)
  {
    hide Loop, Fullest, Line.Order, Skips, LoopLength;
    var n, queued := Fullest(bus, updates), Updated(bus, updates)[c];
    var total := LoopLength(span, n, slots);
    var added, loop := Additions(updates), Loop(slots, 0, total);
    LoopInFull(slots, 0, total, c);
    ReplayConcat(bus[c], added, loop.events, c);
    assert added + loop.events + [] == added + loop.events;
    RoundsSendInOrder(queued, loop.events, c);
    ExpectationFalls(queued, loop.events, c);
    ResetCounts(Replay(queued, loop.events, c), c);
    ReplayConcat(bus[c], added + loop.events, [Reset], c);
  }

  lemma ResetCounts(line: Line, c: nat)
    ensures var after := Replay(line, [Reset], c);
      && after.netLost == line.netLost + line.expectation && after.expectation == 0
      && after.Order() == line.Order() && after.sent == line.sent
  {
    assert [Reset][..0] == [];
    assert Replay(line, [], c) == line;
  }

  /** A cycle with nothing to send waits once, and succeeds even when the wait fails; it then only remembers the error.
      */
  lemma QuietCycleInFull(bus: Bus, bitrate: real, span: int, updates: seq<Update>, slots: seq<Slot>, c: nat)
    requires c < |bus| && Ends(bus, bitrate, span, updates, slots) && !Skips(bus, bitrate, span)
    requires Fullest(bus, updates) == 0
    ensures var queued := Updated(bus, updates)[c];
      var cycle := CycleOf(bus, bitrate, span, updates, slots); var after := Replay(bus[c], cycle.events, c);
      && cycle.okay && cycle.error == SlotAt(slots, 0).waitFails
      && after.sent == queued.sent && after.Order() == queued.Order() == []
      && after.netLost == queued.netLost + queued.expectation - Came(SlotAt(slots, 0), c)
      && after.expectation == 0
  {
    hide Line.Order, Skips;
    var queued, arrivals := Updated(bus, updates)[c], Arrivals(SlotAt(slots, 0).arrivals);
    CountWithin(bus, updates, c);
    assert |queued.Order()| == 0;
    ReplayConcat(bus[c], Additions(updates), arrivals, c);
    ReplayConcat(bus[c], Additions(updates) + arrivals, [Reset], c);
    ArrivalsHaveNoRounds(SlotAt(slots, 0).arrivals);
    RoundsSendInOrder(queued, arrivals, c);
    ExpectationFalls(queued, arrivals, c);
    ArrivalsAreDecoded(SlotAt(slots, 0).arrivals, c);
    ResetCounts(Replay(queued, arrivals, c), c);
  }
}
