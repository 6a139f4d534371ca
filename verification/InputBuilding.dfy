/** InputState and build_input as twe/src/input/input.cpp has them: arrays updated event by event. */
module InputBuilding {
  import opened InputEvents

  // The three flag arrays a KeyboardState or a MouseState holds.
  class SwitchArrays {
    const down: array<bool>
    const pressed: array<bool>
    const released: array<bool>

    ghost predicate Valid() {
      && down.Length == pressed.Length == released.Length
      && down != pressed && down != released && pressed != released
    }

    ghost function Arrays(): set<object> {
      {down, pressed, released}
    }

    function View(): (s: Switches)
      reads down, pressed, released
      ensures Valid() ==> Sized(s, down.Length)
    {
      Switches(down[..], pressed[..], released[..])
    }

    constructor (n: nat)
      ensures Valid() && down.Length == n && fresh(Arrays())
      ensures View() == Switches(AllOff(n), AllOff(n), AllOff(n))
    {
      down := new bool[n](_ => false);
      pressed := new bool[n](_ => false);
      released := new bool[n](_ => false);
    }

    // Assignment of the whole struct.
    method Assign(other: SwitchArrays)
      requires Valid() && other.Valid() && down.Length == other.down.Length
      requires other == this || Arrays() !! other.Arrays()
      modifies Arrays()
      ensures View() == old(other.View())
    {
      forall i | 0 <= i < down.Length { down[i] := other.down[i]; }
      forall i | 0 <= i < down.Length { pressed[i] := other.pressed[i]; }
      forall i | 0 <= i < down.Length { released[i] := other.released[i]; }
      assert down[..] == old(other.down[..]) && pressed[..] == old(other.pressed[..]);
    }

    method ClearEdges()
      requires Valid()
      modifies pressed, released
      ensures View() == Switches(old(View()).down, AllOff(down.Length), AllOff(down.Length))
    {
      forall i | 0 <= i < pressed.Length { pressed[i] := false; }
      forall i | 0 <= i < released.Length { released[i] := false; }
      assert pressed[..] == AllOff(down.Length);
    }

    method Turn(k: nat, on: bool)
      requires Valid() && k < down.Length
      modifies Arrays()
      ensures View() == Turned(old(View()), k, on)
    {
      down[k] := on;
      if on { pressed[k] := true; } else { released[k] := true; }
    }
  }

  class InputState {
    const keyboard: SwitchArrays
    const buttons: SwitchArrays
    var x: int
    var y: int
    var dx: int
    var dy: int
    var focused: bool
    var width: int
    var height: int
    var controller: Controller

    ghost predicate Valid() {
      && keyboard.Valid() && buttons.Valid()
      && keyboard.down.Length == KEYS && buttons.down.Length == BUTTONS
      && keyboard.Arrays() !! buttons.Arrays()
    }

    ghost function Arrays(): set<object> {
      keyboard.Arrays() + buttons.Arrays()
    }

    function View(): (s: Snapshot)
      reads this, Arrays()
      ensures Valid() ==> Whole(s)
    {
      Snapshot(keyboard.View(), buttons.View(), x, y, dx, dy, focused, width, height, controller)
    }

    constructor ()
      ensures Valid() && fresh(Arrays()) && View() == Fresh()
    {
      keyboard := new SwitchArrays(KEYS);
      buttons := new SwitchArrays(BUTTONS);
      x, y, dx, dy, focused, width, height := 0, 0, 0, 0, true, 0, 0;
      controller := Controller(false, seq(8, _ => 0.0), AllOff(16));
    }

    method Assign(other: InputState)
      requires Valid() && other.Valid() && (other == this || Arrays() !! other.Arrays())
      modifies this, Arrays()
      ensures View() == old(other.View())
      ensures other != this ==> other.View() == old(other.View())
    {
      keyboard.Assign(other.keyboard);
      buttons.Assign(other.buttons);
      x, y, dx, dy := other.x, other.y, other.dx, other.dy;
      focused, width, height, controller := other.focused, other.width, other.height, other.controller;
    }

    method StartFrame()
      requires Valid()
      modifies this, Arrays()
      ensures View() == FrameStart(old(View()))
    {
      keyboard.ClearEdges();
      buttons.ClearEdges();
      dx, dy := 0, 0;
    }

    method Handle(e: Event)
      requires Valid() && InRange(e)
      modifies this, Arrays()
      ensures View() == Apply(old(View()), e)
    {
      if !e.category.Input? { return; }
      match e.kind {
        case MouseMove(ex, ey) => dx, dy := ex, ey;
        case MouseButton(button, isDown) => buttons.Turn(button, isDown);
        case KeyPressDown(vkey) => keyboard.Turn(vkey, true);
        case KeyPressUp(vkey) => keyboard.Turn(vkey, false);
        case MouseWheel(delta) => dx := dx + delta;
        case Resized(w, h) => width, height := w, h;
        case FocusGained => focused := true;
        case FocusLost => focused := false;
        case Other =>
      }
    }
  }

  method BuildInput(input: InputState, prev: InputState, events: seq<Event>)
    requires input.Valid() && prev.Valid() && (prev == input || input.Arrays() !! prev.Arrays())
    requires AllInRange(events)
    modifies input, input.Arrays()
    ensures input.View() == Built(old(prev.View()), events)
    ensures prev != input ==> prev.View() == old(prev.View())
  {
    input.Assign(prev);
    input.StartFrame();
    ghost var start := input.View();
    var i := 0;
    while i < |events|
      invariant i <= |events| && input.View() == Applied(start, events[..i])
      invariant prev != input ==> prev.View() == old(prev.View())
    {
      input.Handle(events[i]);
      assert events[..i + 1][..i] == events[..i];
      i := i + 1;
    }
    assert events[..i] == events;
  }
}
