/**
 Frame intervals and carried input over whole runs of the frame loop, and the way from the event queue
 to held input.
 */
module EngineTheorems {
  import opened Common
  import opened Claims
  import opened InputEvents
  import opened EngineLoop
  import RingModel
  import RingTheorems

  // ---- Frame intervals ------------------------------------------------------------------------

  lemma {:induction false} FramesOfAt(start: nat, init: Snapshot, turns: seq<Turn>, k: nat)
    requires TurnsInRange(turns) && Whole(init) && k < |turns|
    ensures FramesOf(start, init, turns)[..k] == FramesOf(start, init, turns[..k])
    ensures FramesOf(start, init, turns)[k] == FrameOf(start, init, FramesOf(start, init, turns[..k]), turns[k])
    decreases |turns|
  {
    var n := |turns| - 1;
    if k < n {
      FramesOfAt(start, init, turns[..n], k);
      assert turns[..n][..k] == turns[..k];
      assert FramesOf(start, init, turns)[..k] == FramesOf(start, init, turns[..n])[..k];
    } else {
      assert turns[..n] == turns[..k];
      assert FramesOf(start, init, turns)[..n] == FramesOf(start, init, turns[..n]);
    }
  }

  /**
   Frames are numbered from 0 and tile time from the loop's start: none is empty, each begins where the
   one before ended, and each reaches the clock; it runs past the clock, by one tick from its
   beginning, exactly when the clock has not passed that beginning.
   */
  lemma Intervals(start: nat, init: Snapshot, turns: seq<Turn>, k: nat)
    requires TurnsInRange(turns) && Whole(init) && k < |turns|
    ensures
      var frames := FramesOf(start, init, turns);
      var f := frames[k];
      && f.index == k && f.start < f.end
      && f.start == (if k == 0 then start else frames[k - 1].end)
      && turns[k].now <= f.end
      && (f.end > turns[k].now <==> turns[k].now <= f.start)
      && (f.end > turns[k].now ==> f.end == f.start + 1)
  {
    FramesOfAt(start, init, turns, k);
    var frames := FramesOf(start, init, turns);
    assert k > 0 ==> frames[..k][k - 1] == frames[k - 1];
  }

  // Every tick from the start to the last frame's end lies in exactly one frame.
  lemma {:induction false} TickInOneFrame(start: nat, init: Snapshot, turns: seq<Turn>, tick: nat)
    requires TurnsInRange(turns) && Whole(init) && turns != []
    requires start <= tick < FramesOf(start, init, turns)[|turns| - 1].end
    ensures
      var frames := FramesOf(start, init, turns);
      exists k | 0 <= k < |turns| ::
        && frames[k].start <= tick < frames[k].end
        && forall j | 0 <= j < |turns| && j != k :: !(frames[j].start <= tick < frames[j].end)
  {
    var frames := FramesOf(start, init, turns);
    var k := 0;
    Intervals(start, init, turns, 0);
    while frames[k].end <= tick
      invariant k < |turns| && frames[k].start <= tick
      decreases |turns| - k
    {
      k := k + 1;
      Intervals(start, init, turns, k);
    }
    forall j | 0 <= j < |turns| && j != k ensures !(frames[j].start <= tick < frames[j].end) {
      if j < k { FrameOrder(start, init, turns, j, k); } else { FrameOrder(start, init, turns, k, j); }
    }
  }

  lemma {:induction false} FrameOrder(start: nat, init: Snapshot, turns: seq<Turn>, j: nat, k: nat)
    requires TurnsInRange(turns) && Whole(init) && j < k < |turns|
    ensures FramesOf(start, init, turns)[j].end <= FramesOf(start, init, turns)[k].start
    decreases k
  {
    Intervals(start, init, turns, k);
    if j < k - 1 {
      Intervals(start, init, turns, k - 1);
      FrameOrder(start, init, turns, j, k - 1);
    }
  }

  // ---- Input over a run -----------------------------------------------------------------------

  function EventsOf(turns: seq<Turn>): (r: seq<seq<Event>>)
    ensures |r| == |turns| && forall i | 0 <= i < |r| :: r[i] == turns[i].events
  {
    seq(|turns|, i requires 0 <= i < |turns| => turns[i].events)
  }

  lemma {:induction false} InputOfRun(start: nat, init: Snapshot, turns: seq<Turn>)
    requires TurnsInRange(turns) && Whole(init)
    ensures FramesInRange(EventsOf(turns))
    ensures NextInput(init, FramesOf(start, init, turns)) == BuiltOver(init, EventsOf(turns))
    decreases |turns|
  {
    if turns != [] {
      var n := |turns| - 1;
      InputOfRun(start, init, turns[..n]);
      assert EventsOf(turns)[..n] == EventsOf(turns[..n]);
    }
  }

  // The values claimed in the queue, in ticket order.
  function Values<T>(claims: seq<Claim<T>>): (r: seq<T>)
    ensures |r| == |claims| && forall i | 0 <= i < |r| :: r[i] == claims[i].value
  {
    seq(|claims|, i requires 0 <= i < |claims| => claims[i].value)
  }

  // The events of the turns, in order, are what has been popped since.
  ghost predicate Popped(popped: seq<Option<QueuedEvent>>, prior: seq<Option<QueuedEvent>>, turns: seq<Turn>) {
    && TurnsInRange(turns)
    && |popped| == |prior| + |Flat(EventsOf(turns))|
    && prior <= popped
    && forall i | 0 <= i < |Flat(EventsOf(turns))| :: popped[|prior| + i] == Some(Flat(EventsOf(turns))[i])
  }

  // last holds what the events of tickets from up to to leave held.
  ghost predicate TicketsDecide(claims: seq<Claim<QueuedEvent>>, from: nat, to: nat, init: Snapshot, last: Snapshot)
    requires Whole(init)
  {
    && from <= to <= |claims|
    && AllInRange(Values(claims[from..to]))
    && HeldOf(last) == HeldOf(Applied(init, Values(claims[from..to])))
  }

  /**
   What the frames of a run hold is decided by ticket order: if they drained what the ring's consumer
   has popped since it had popped prior, then whatever the interleaving of the producers and wherever
   the frames cut the stream, the last frame holds what the events of the tickets since leave held.
   */
  lemma HeldFromTickets(c: nat, ring: RingModel.State<QueuedEvent>, prior: seq<Option<QueuedEvent>>,
                        start: nat, init: Snapshot, turns: seq<Turn>)
    requires RingTheorems.Reachable(c, ring) && Popped(ring.history.popped, prior, turns) && Whole(init)
    ensures TicketsDecide(ring.history.claims, |prior|, ring.head, init, NextInput(init, FramesOf(start, init, turns)))
  {
    var h := |prior|;
    RingTheorems.Fifo(c, ring);
    InputOfRun(start, init, turns);
    HeldOverFrames(init, EventsOf(turns));
    var es, vs: seq<Event> := Flat(EventsOf(turns)), Values(ring.history.claims[h..ring.head]);
    forall i | 0 <= i < |es| ensures es[i] == vs[i] {
      assert ring.history.popped[h + i] == Some(ring.history.claims[h + i].value);
    }
    assert es == vs;
  }
}
