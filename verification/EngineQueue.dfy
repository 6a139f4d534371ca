/** The frame loop of twe/src/engine/engine.cpp on the event queue itself: each frame drains the ring. */
module EngineQueue {
  import opened Common
  import opened InputEvents
  import opened InputBuilding
  import opened EngineLoop
  import opened EngineTheorems
  import opened RingBuffer
  import RingModel
  import RingSafety

  type Ring = RingModel.State<QueuedEvent>

  // What the outside does in one turn of the loop, the queue apart; the drain makes at most pops pops.
  datatype Tick = Tick(now: nat, pops: nat, goesOn: bool)

  function Somes<T>(xs: seq<T>): (r: seq<Option<T>>)
    ensures |r| == |xs| && forall i | 0 <= i < |xs| :: r[i] == Some(xs[i])
  {
    seq(|xs|, i requires 0 <= i < |xs| => Some(xs[i]))
  }

  lemma SomesConcat<T>(xs: seq<T>, ys: seq<T>)
    ensures Somes(xs + ys) == Somes(xs) + Somes(ys)
  {}

  // events are those of the tickets the consumer took from ring to later.
  ghost predicate Took(ring: Ring, later: Ring, events: seq<Event>) {
    && ring.history.claims <= later.history.claims && RingSafety.Lasting(ring, later)
    && later.head == ring.head + |events|
    && forall i | 0 <= i < |events| ::
         ring.head + i < |later.history.claims| && events[i] == later.history.claims[ring.head + i].value
  }

  // With at most pops pops, and as far as these reach none of the tickets next in line that were published is left.
  ghost predicate LeavesNone(ring: Ring, taken: nat, pops: nat) {
    taken <= pops && forall n: nat | RingSafety.Waiting(ring, n) && n <= pops :: n <= taken
  }

  // From ring to later the consumer drained the queue, in at most pops pops, of events.
  ghost predicate Drained(ring: Ring, later: Ring, events: seq<Event>, pops: nat) {
    Took(ring, later, events) && LeavesNone(ring, |events|, pops)
  }

  // The inner loop, with the producers free to run all the time.
  method Drain(queue: MpscRingBuffer<QueuedEvent>, pops: nat) returns (events: seq<QueuedEvent>)
    requires queue.Valid() && queue.consumer == RingModel.Outside
    modifies queue, queue.buffer
    ensures queue.Valid() && queue.consumer == RingModel.Outside
    ensures queue.history.popped == old(queue.history.popped) + Somes(events)
    ensures Drained(old(queue.View()), queue.View(), events, pops)
  {
    ghost var ring := queue.View();
    events := [];
    for i := 0 to pops
      invariant queue.Valid() && queue.consumer == RingModel.Outside && |events| == i
      invariant queue.history.popped == old(queue.history.popped) + Somes(events)
      invariant Took(ring, queue.View(), events)
    {
      var e := queue.TryPop();
      if e.None? {
        assert !RingSafety.Published(ring, ring.head + i);
        return;
      }
      SomesConcat(events, [e.value]);
      events := events + [e.value];
    }
  }

  ghost predicate Separate(queue: MpscRingBuffer<QueuedEvent>, input: InputState, prevInput: InputState) {
    && Apart(input, prevInput)
    && {queue as object, queue.buffer} !! {input as object, prevInput} + input.Arrays() + prevInput.Arrays()
  }

  // One turn of the loop, up to the call of update.
  method TurnOnQueue(queue: MpscRingBuffer<QueuedEvent>, tick: Tick, index: nat, last: nat,
                     input: InputState, prevInput: InputState,
                     ghost start: nat, ghost init: Snapshot, ghost before: seq<Frame>)
    returns (frame: Frame, ghost events: seq<QueuedEvent>)
    requires queue.Valid() && queue.consumer == RingModel.Outside && Separate(queue, input, prevInput)
    requires index == |before| && last == NextStart(start, before) && input.View() == NextInput(init, before)
    modifies queue, queue.buffer, input, prevInput, input.Arrays(), prevInput.Arrays()
    ensures queue.Valid() && queue.consumer == RingModel.Outside
    ensures queue.history.popped == old(queue.history.popped) + Somes(events)
    ensures Drained(old(queue.View()), queue.View(), events, tick.pops)
    ensures frame == FrameOf(start, init, before, Turn(tick.now, events, tick.goesOn)) && input.View() == frame.input
  {
    var drained := Drain(queue, tick.pops);
    frame := MakeFrame(index, last, Turn(tick.now, drained, tick.goesOn), input, prevInput, start, init, before);
    events := drained;
  }

  // The turn the loop made is what the outside did, with the events drained.
  ghost predicate Follows(turns: seq<Turn>, ticks: seq<Tick>) {
    && |turns| <= |ticks|
    && forall i | 0 <= i < |turns| :: turns[i].now == ticks[i].now && turns[i].goesOn == ticks[i].goesOn
  }

  lemma PoppedMore(popped: seq<Option<QueuedEvent>>, prior: seq<Option<QueuedEvent>>, turns: seq<Turn>, turn: Turn,
                   events: seq<QueuedEvent>)
    requires Popped(popped, prior, turns) && turn.events == events
    ensures Popped(popped + Somes(events), prior, turns + [turn])
  {
    var more := turns + [turn];
    assert EventsOf(more)[..|turns|] == EventsOf(turns);
    assert Flat(EventsOf(more)) == Flat(EventsOf(turns)) + events;
  }

  // rings[k] is the ring as turn k begins, the last one as it is after all turns; each turn drains it.
  ghost predicate EachDrained(rings: seq<Ring>, turns: seq<Turn>, ticks: seq<Tick>) {
    && |rings| == |turns| + 1 && |turns| <= |ticks|
    && forall k | 0 <= k < |turns| :: Drained(rings[k], rings[k + 1], turns[k].events, ticks[k].pops)
  }

  lemma EachDrainedMore(rings: seq<Ring>, turns: seq<Turn>, ticks: seq<Tick>, turn: Turn, later: Ring)
    requires EachDrained(rings, turns, ticks) && |turns| < |ticks|
    requires Drained(rings[|turns|], later, turn.events, ticks[|turns|].pops)
    ensures EachDrained(rings + [later], turns + [turn], ticks)
    ensures ((rings + [later])[0], (rings + [later])[|turns| + 1]) == (rings[0], later)
  {}

  // Two drains in a row are one.
  lemma DrainedTwice(a: Ring, b: Ring, c: Ring, xs: seq<Event>, ys: seq<Event>, m: nat, n: nat)
    requires Drained(a, b, xs, m) && Drained(b, c, ys, n)
    ensures Drained(a, c, xs + ys, m + n)
  {
    forall k: nat | RingSafety.Waiting(a, k) && k <= m + n ensures k <= |xs + ys| {
      if m < k {
        assert RingSafety.Waiting(a, m);
        assert RingSafety.Waiting(b, k - m);
      }
    }
  }

  function PopsOf(ticks: seq<Tick>): nat {
    if ticks == [] then 0 else PopsOf(ticks[..|ticks| - 1]) + ticks[|ticks| - 1].pops
  }

  lemma OneTurnMore(turns: seq<Turn>, ticks: seq<Tick>, j: nat, k: nat)
    requires j < k <= |turns| <= |ticks|
    ensures Flat(EventsOf(turns[j..k])) == Flat(EventsOf(turns[j..k - 1])) + turns[k - 1].events
    ensures PopsOf(ticks[j..k]) == PopsOf(ticks[j..k - 1]) + ticks[k - 1].pops
  {
    assert EventsOf(turns[j..k])[..k - 1 - j] == EventsOf(turns[j..k - 1]);
    assert ticks[j..k][..k - 1 - j] == ticks[j..k - 1];
  }

  /**
   The turns from j to k together drain the ring they began with, in as many pops as they have
   together; so what one turn's pops did not reach is first in line for the next.
   */
  lemma {:induction false} TurnsDrain(rings: seq<Ring>, turns: seq<Turn>, ticks: seq<Tick>, j: nat, k: nat)
    requires EachDrained(rings, turns, ticks) && j <= k <= |turns|
    ensures Drained(rings[j], rings[k], Flat(EventsOf(turns[j..k])), PopsOf(ticks[j..k]))
    decreases k
  {
    if j < k {
      TurnsDrain(rings, turns, ticks, j, k - 1);
      DrainedTwice(rings[j], rings[k - 1], rings[k], Flat(EventsOf(turns[j..k - 1])), turns[k - 1].events,
                   PopsOf(ticks[j..k - 1]), ticks[k - 1].pops);
      OneTurnMore(turns, ticks, j, k);
    }
  }

  /**
   The whole loop on the event queue, whatever the producers do meanwhile. Its frames are those of the
   turns it made, and their events are what it popped, in order; so what the last frame holds is decided by
   the queue's ticket order alone. Each turn drains the queue: an event that was published as the turn
   began, with all before it, is in the frames up to that turn if the turn's pops reach it.
   */
  method RunOnQueue(start: nat, ticks: seq<Tick>, queue: MpscRingBuffer<QueuedEvent>)
    returns (frames: seq<Frame>, running: bool, ghost turns: seq<Turn>, ghost init: Snapshot, ghost rings: seq<Ring>)
    requires queue.Valid() && queue.consumer == RingModel.Outside
    modifies queue, queue.buffer
    ensures queue.Valid() && queue.consumer == RingModel.Outside
    ensures Follows(turns, ticks) && Counted(turns, |turns|, running) && (running ==> |turns| == |ticks|)
    ensures init == Fresh() && TurnsInRange(turns) && frames == FramesOf(start, init, turns)
    ensures Popped(queue.history.popped, old(queue.history.popped), turns)
    ensures TicketsDecide(queue.history.claims, old(|queue.history.popped|), queue.head, init, NextInput(init, frames))
    ensures EachDrained(rings, turns, ticks) && rings[0] == old(queue.View()) && rings[|turns|] == queue.View()
    ensures Drained(old(queue.View()), queue.View(), Flat(EventsOf(turns)), PopsOf(ticks[..|turns|]))
  {
    var input := new InputState();
    var prevInput := new InputState();
    init := input.View();
    frames, running, turns, rings := RunWithQueue(start, ticks, queue, input, prevInput);
    TurnsDrain(rings, turns, ticks, 0, |turns|);
    assert turns[0..|turns|] == turns;
  }

  method RunWithQueue(start: nat, ticks: seq<Tick>, queue: MpscRingBuffer<QueuedEvent>,
                      input: InputState, prevInput: InputState)
    returns (frames: seq<Frame>, running: bool, ghost turns: seq<Turn>, ghost rings: seq<Ring>)
    requires queue.Valid() && queue.consumer == RingModel.Outside && Separate(queue, input, prevInput)
    modifies queue, queue.buffer, input, prevInput, input.Arrays(), prevInput.Arrays()
    ensures queue.Valid() && queue.consumer == RingModel.Outside
    ensures Follows(turns, ticks) && Counted(turns, |turns|, running) && (running ==> |turns| == |ticks|)
    ensures Popped(queue.history.popped, old(queue.history.popped), turns)
    ensures frames == FramesOf(start, old(input.View()), turns)
    ensures TicketsDecide(queue.history.claims, old(|queue.history.popped|), queue.head, old(input.View()),
                          NextInput(old(input.View()), frames))
    ensures EachDrained(rings, turns, ticks) && rings[0] == old(queue.View()) && rings[|turns|] == queue.View()
  {
    ghost var prior, init := queue.history.popped, input.View();
    frames, running, turns, rings := LoopOnQueue(start, ticks, queue, input, prevInput);
    HeldFromTickets(queue.capacity, queue.View(), prior, start, init, turns);
  }

  method LoopOnQueue(start: nat, ticks: seq<Tick>, queue: MpscRingBuffer<QueuedEvent>,
                     input: InputState, prevInput: InputState)
    returns (frames: seq<Frame>, running: bool, ghost turns: seq<Turn>, ghost rings: seq<Ring>)
    requires queue.Valid() && queue.consumer == RingModel.Outside && Separate(queue, input, prevInput)
    modifies queue, queue.buffer, input, prevInput, input.Arrays(), prevInput.Arrays()
    ensures queue.Valid() && queue.consumer == RingModel.Outside
    ensures Follows(turns, ticks) && Counted(turns, |turns|, running) && (running ==> |turns| == |ticks|)
    ensures Popped(queue.history.popped, old(queue.history.popped), turns)
    ensures frames == FramesOf(start, old(input.View()), turns)
    ensures EachDrained(rings, turns, ticks) && rings[0] == old(queue.View()) && rings[|turns|] == queue.View()
  {
    ghost var init, prior, first := input.View(), queue.history.popped, queue.View();
    running := true;
    var last := start;
    frames, turns, rings := [], [], [first];
    while running && |frames| < |ticks|
      invariant queue.Valid() && queue.consumer == RingModel.Outside
      invariant |frames| == |turns| && Follows(turns, ticks) && Counted(turns, |turns|, running)
      invariant Popped(queue.history.popped, prior, turns)
      invariant EachDrained(rings, turns, ticks) && rings[0] == first && rings[|turns|] == queue.View()
      invariant frames == FramesOf(start, init, turns) && last == NextStart(start, frames)
      invariant input.View() == NextInput(init, frames)
      decreases |ticks| - |frames|
    {
      var tick := ticks[|frames|];
      ghost var popped := queue.history.popped;
      var frame;
      ghost var events;
      frame, events := TurnOnQueue(queue, tick, |frames|, last, input, prevInput, start, init, frames);
      ghost var turn := Turn(tick.now, events, tick.goesOn);
      PoppedMore(popped, prior, turns, turn, events);
      EachDrainedMore(rings, turns, ticks, turn, queue.View());
      TurnMade(start, init, ticks, turns, frames, turn, frame);
      frames, turns, rings := frames + [frame], turns + [turn], rings + [queue.View()];
      last := frame.end;
      running := tick.goesOn;
    }
  }

  lemma TurnMade(start: nat, init: Snapshot, ticks: seq<Tick>, turns: seq<Turn>, frames: seq<Frame>, turn: Turn,
                 frame: Frame)
    requires TurnsInRange(turns) && Whole(init) && AllInRange(turn.events) && Counted(turns, |turns|, true)
    requires Follows(turns, ticks) && |turns| < |ticks|
    requires turn.now == ticks[|turns|].now && turn.goesOn == ticks[|turns|].goesOn
    requires frames == FramesOf(start, init, turns) && frame == FrameOf(start, init, frames, turn)
    ensures TurnsInRange(turns + [turn]) && frames + [frame] == FramesOf(start, init, turns + [turn])
    ensures Follows(turns + [turn], ticks) && Counted(turns + [turn], |turns| + 1, turn.goesOn)
  {
    var more := turns + [turn];
    assert more[..|turns|] == turns;
  }
}
