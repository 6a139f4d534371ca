/** The frame loop of twe/src/engine/engine.cpp: frame intervals, and input carried from frame to frame. */
module EngineLoop {
  import opened InputEvents
  import opened InputBuilding

  // What the outside does in one turn of the loop: the clock read, the events the queue yields until
  // it answers empty, and whether `running` is still set when the loop next tests it.
  datatype Turn = Turn(now: nat, events: seq<Event>, goesOn: bool)

  datatype Frame = Frame(index: nat, start: nat, end: nat, input: Snapshot)

  predicate TurnsInRange(turns: seq<Turn>) {
    forall i | 0 <= i < |turns| :: AllInRange(turns[i].events)
  }

  // Where the frame after these starts, and the input it starts from.
  function NextStart(start: nat, before: seq<Frame>): nat {
    if before == [] then start else before[|before| - 1].end
  }

  function NextInput(init: Snapshot, before: seq<Frame>): Snapshot {
    if before == [] then init else before[|before| - 1].input
  }

  function FrameOf(start: nat, init: Snapshot, before: seq<Frame>, turn: Turn): Frame
    requires Whole(NextInput(init, before)) && AllInRange(turn.events)
  {
    var last := NextStart(start, before);
    Frame(|before|, last, if turn.now > last then turn.now else last + 1, Built(NextInput(init, before), turn.events))
  }

  function FramesOf(start: nat, init: Snapshot, turns: seq<Turn>): (r: seq<Frame>)
    requires TurnsInRange(turns) && Whole(init)
    ensures |r| == |turns| && Whole(NextInput(init, r))
  {
    if turns == [] then []
    else
      var before := FramesOf(start, init, turns[..|turns| - 1]);
      before + [FrameOf(start, init, before, turns[|turns| - 1])]
  }

  lemma FramesGrow(start: nat, init: Snapshot, turns: seq<Turn>, n: nat, before: seq<Frame>, frame: Frame)
    requires TurnsInRange(turns) && Whole(init) && n < |turns| && before == FramesOf(start, init, turns[..n])
    requires frame == FrameOf(start, init, before, turns[n])
    ensures before + [frame] == FramesOf(start, init, turns[..n + 1])
  {
    assert turns[..n + 1][..n] == turns[..n];
  }

  // n turns were made, and the last of them is the first to leave running off, or none of them does.
  predicate Counted(turns: seq<Turn>, n: nat, running: bool)
    requires n <= |turns|
  {
    if running then forall i | 0 <= i < n :: turns[i].goesOn
    else n > 0 && !turns[n - 1].goesOn && forall i | 0 <= i < n - 1 :: turns[i].goesOn
  }

  lemma CountOn(turns: seq<Turn>, n: nat)
    requires n < |turns| && Counted(turns, n, true)
    ensures Counted(turns, n + 1, turns[n].goesOn)
  {}

  // The loop, given what the outside does in each of its turns: it makes one frame for each turn up to
  // and including the first after which running is off.
  method Run(start: nat, turns: seq<Turn>) returns (frames: seq<Frame>, running: bool)
    requires TurnsInRange(turns)
    ensures |frames| <= |turns| && frames == FramesOf(start, Fresh(), turns[..|frames|])
    ensures Counted(turns, |frames|, running) && (running ==> |frames| == |turns|)
  {
    var input := new InputState();
    var prevInput := new InputState();
    frames, running := RunWith(start, turns, input, prevInput);
  }

  method RunWith(start: nat, turns: seq<Turn>, input: InputState, prevInput: InputState)
    returns (frames: seq<Frame>, running: bool)
    requires TurnsInRange(turns) && Apart(input, prevInput)
    modifies input, prevInput, input.Arrays(), prevInput.Arrays()
    ensures |frames| <= |turns| && frames == FramesOf(start, old(input.View()), turns[..|frames|])
    ensures Counted(turns, |frames|, running) && (running ==> |frames| == |turns|)
  {
    ghost var init := input.View();
    running := true;
    var last := start;
    var frameIndex := 0;
    frames := [];
    while running && frameIndex < |turns|
      invariant frameIndex == |frames| <= |turns|
      invariant Counted(turns, frameIndex, running)
      invariant frames == FramesOf(start, init, turns[..frameIndex]) && last == NextStart(start, frames)
      invariant input.View() == NextInput(init, frames)
      decreases |turns| - frameIndex
    {
      var turn := turns[frameIndex];
      var frame := MakeFrame(frameIndex, last, turn, input, prevInput, start, init, frames);
      FramesGrow(start, init, turns, frameIndex, frames, frame);
      CountOn(turns, frameIndex);
      frames := frames + [frame];
      frameIndex := frameIndex + 1;
      last := frame.end;
      running := turn.goesOn;
    }
  }

  ghost predicate Apart(a: InputState, b: InputState) {
    a.Valid() && b.Valid() && a != b && a.Arrays() !! b.Arrays()
  }

  // One frame's input: built in the frame's own context from the previous one, then kept for the next.
  method CarryInput(input: InputState, prevInput: InputState, events: seq<Event>)
    requires Apart(input, prevInput) && AllInRange(events)
    modifies input, prevInput, input.Arrays(), prevInput.Arrays()
    ensures input.View() == Built(old(input.View()), events)
  {
    prevInput.Assign(input);
    var frameInput := new InputState();
    BuildInput(frameInput, prevInput, events);
    input.Assign(frameInput);
  }

  // One turn of the loop, up to the call of update.
  method MakeFrame(index: nat, last: nat, turn: Turn, input: InputState, prevInput: InputState,
                   ghost start: nat, ghost init: Snapshot, ghost before: seq<Frame>)
    returns (frame: Frame)
    requires Apart(input, prevInput) && AllInRange(turn.events)
    requires index == |before| && last == NextStart(start, before) && input.View() == NextInput(init, before)
    modifies input, prevInput, input.Arrays(), prevInput.Arrays()
    ensures frame == FrameOf(start, init, before, turn) && input.View() == frame.input
  {
    var dt := if turn.now > last then turn.now - last else 1;
    var end := last + dt;
    CarryInput(input, prevInput, turn.events);
    frame := Frame(index, last, end, input.View());
  }
}
