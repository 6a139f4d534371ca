/** Input events and what a list of them does to an input snapshot: the meaning of twe/src/input/input.cpp. */
module InputEvents {
  import opened Common

  datatype Category = Input | Window | System

  // Other stands for every type build_input has no case for.
  datatype Kind =
    | KeyPressDown(vkey: nat)
    | KeyPressUp(vkey: nat)
    | MouseMove(dx: int, dy: int)
    | MouseButton(button: nat, isDown: bool)
    | MouseWheel(delta: int)
    | Resized(width: int, height: int)
    | FocusGained
    | FocusLost
    | Other

  datatype Event = Event(category: Category, kind: Kind)

  const KEYS: nat := 256
  const BUTTONS: nat := 3

  // The indices build_input uses without a check.
  predicate InRange(e: Event) {
    e.category.Input? ==> (e.kind.KeyPressDown? || e.kind.KeyPressUp? ==> e.kind.vkey < KEYS)
                          && (e.kind.MouseButton? ==> e.kind.button < BUTTONS)
  }

  // What producers may put into the event queue.
  type QueuedEvent = e: Event | InRange(e) witness Event(System, Other)

  predicate AllInRange(es: seq<Event>) {
    forall i | 0 <= i < |es| :: InRange(es[i])
  }

  // Keys or buttons: held now, went down this frame, went up this frame.
  datatype Switches = Switches(down: seq<bool>, pressed: seq<bool>, released: seq<bool>)

  predicate Sized(s: Switches, n: nat) {
    |s.down| == |s.pressed| == |s.released| == n
  }

  function AllOff(n: nat): seq<bool> {
    seq(n, _ => false)
  }

  function Turned(s: Switches, k: nat, on: bool): Switches
    requires k < |s.down| == |s.pressed| == |s.released|
  {
    if on then Switches(s.down[k := true], s.pressed[k := true], s.released)
    else Switches(s.down[k := false], s.pressed, s.released[k := true])
  }

  datatype Controller = Controller(connected: bool, axes: seq<real>, buttons: seq<bool>)

  datatype Snapshot = Snapshot(
    keys: Switches, buttons: Switches,
    x: int, y: int, dx: int, dy: int,
    focused: bool, width: int, height: int,
    controller: Controller)

  predicate Whole(s: Snapshot) {
    Sized(s.keys, KEYS) && Sized(s.buttons, BUTTONS)
  }

  function Fresh(): (s: Snapshot)
    ensures Whole(s)
  {
    var keys, buttons := AllOff(KEYS), AllOff(BUTTONS);
    Snapshot(Switches(keys, keys, keys), Switches(buttons, buttons, buttons), 0, 0, 0, 0, true, 0, 0,
             Controller(false, seq(8, _ => 0.0), AllOff(16)))
  }

  // Everything off and at 0, and the window in focus.
  lemma FreshFields()
    ensures
      var s := Fresh();
      && (forall k | 0 <= k < KEYS :: !s.keys.down[k] && !s.keys.pressed[k] && !s.keys.released[k])
      && (forall k | 0 <= k < BUTTONS :: !s.buttons.down[k] && !s.buttons.pressed[k] && !s.buttons.released[k])
      && (s.x, s.y, s.dx, s.dy) == (0, 0, 0, 0) && (s.focused, s.width, s.height) == (true, 0, 0)
      && !s.controller.connected && |s.controller.axes| == 8 && |s.controller.buttons| == 16
      && (forall k | 0 <= k < 8 :: s.controller.axes[k] == 0.0) && forall k | 0 <= k < 16 :: !s.controller.buttons[k]
  {}

  function Apply(s: Snapshot, e: Event): (r: Snapshot)
    requires Whole(s) && InRange(e)
    ensures Whole(r)
  {
    if !e.category.Input? then s
    else
      match e.kind
      case MouseMove(dx, dy) => s.(dx := dx, dy := dy)
      case MouseButton(button, isDown) => s.(buttons := Turned(s.buttons, button, isDown))
      case KeyPressDown(vkey) => s.(keys := Turned(s.keys, vkey, true))
      case KeyPressUp(vkey) => s.(keys := Turned(s.keys, vkey, false))
      case MouseWheel(delta) => s.(dx := s.dx + delta)
      case Resized(width, height) => s.(width := width, height := height)
      case FocusGained => s.(focused := true)
      case FocusLost => s.(focused := false)
      case Other => s
  }

  function Applied(s: Snapshot, es: seq<Event>): (r: Snapshot)
    requires Whole(s) && AllInRange(es)
    ensures Whole(r)
  {
    if es == [] then s else Apply(Applied(s, es[..|es| - 1]), es[|es| - 1])
  }

  // The start of a frame: edges and motion forgotten, all else kept.
  function FrameStart(prev: Snapshot): (r: Snapshot)
    requires Whole(prev)
    ensures Whole(r)
  {
    prev.(keys := Switches(prev.keys.down, AllOff(KEYS), AllOff(KEYS)),
          buttons := Switches(prev.buttons.down, AllOff(BUTTONS), AllOff(BUTTONS)),
          dx := 0, dy := 0)
  }

  function Built(prev: Snapshot, es: seq<Event>): (r: Snapshot)
    requires Whole(prev) && AllInRange(es)
    ensures Whole(r)
  {
    Applied(FrameStart(prev), es)
  }

  // ---- What a frame's flags and held states mean ----------------------------------------------

  // Event e turns key k (or button k) on (or off).
  predicate Turns(e: Event, key: bool, k: nat, on: bool) {
    e.category.Input? &&
    if key then e.kind == (if on then KeyPressDown(k) else KeyPressUp(k)) else e.kind == MouseButton(k, on)
  }

  function Part(s: Snapshot, key: bool): Switches {
    if key then s.keys else s.buttons
  }

  function Width(key: bool): nat {
    if key then KEYS else BUTTONS
  }

  ghost predicate AnyTurns(es: seq<Event>, key: bool, k: nat, on: bool) {
    exists i | 0 <= i < |es| :: Turns(es[i], key, k, on)
  }

  // Turned on by some event and not turned off by any later one.
  ghost predicate LeftOn(es: seq<Event>, key: bool, k: nat) {
    exists i | 0 <= i < |es| :: Turns(es[i], key, k, true) && forall j | i < j < |es| :: !Turns(es[j], key, k, false)
  }

  lemma ApplyOne(s: Snapshot, e: Event, key: bool, k: nat)
    requires Whole(s) && InRange(e) && k < Width(key)
    ensures
      var before, after := Part(s, key), Part(Apply(s, e), key);
      && (after.pressed[k] <==> before.pressed[k] || Turns(e, key, k, true))
      && (after.released[k] <==> before.released[k] || Turns(e, key, k, false))
      && (after.down[k] <==> Turns(e, key, k, true) || (before.down[k] && !Turns(e, key, k, false)))
  {}

  lemma TurnedOn(es: seq<Event>, key: bool, k: nat)
    requires es != []
    ensures
      var n := |es| - 1;
      && (forall on :: AnyTurns(es, key, k, on) <==> AnyTurns(es[..n], key, k, on) || Turns(es[n], key, k, on))
      && (LeftOn(es, key, k) <==>
            Turns(es[n], key, k, true) || (LeftOn(es[..n], key, k) && !Turns(es[n], key, k, false)))
  {
    var n := |es| - 1;
    var front := es[..n];
    forall on ensures AnyTurns(es, key, k, on) <==> AnyTurns(front, key, k, on) || Turns(es[n], key, k, on) {
      if i :| 0 <= i < n && Turns(front[i], key, k, on) { assert Turns(es[i], key, k, on); }
      if i :| 0 <= i < n && Turns(es[i], key, k, on) { assert Turns(front[i], key, k, on); }
    }
    if LeftOn(es, key, k) && !Turns(es[n], key, k, true) {
      var i :| 0 <= i < |es| && Turns(es[i], key, k, true) && forall j | i < j < |es| :: !Turns(es[j], key, k, false);
      assert Turns(front[i], key, k, true) && forall j | i < j < n :: !Turns(front[j], key, k, false);
    }
    if LeftOn(front, key, k) && !Turns(es[n], key, k, false) {
      var i :| 0 <= i < n && Turns(front[i], key, k, true) && forall j | i < j < n :: !Turns(front[j], key, k, false);
      assert Turns(es[i], key, k, true) && forall j | i < j < n :: es[j] == front[j];
    }
  }

  lemma {:induction false} AppliedMeaning(s: Snapshot, es: seq<Event>, key: bool, k: nat)
    requires Whole(s) && AllInRange(es) && k < Width(key)
    ensures
      var before, after := Part(s, key), Part(Applied(s, es), key);
      && (after.pressed[k] <==> before.pressed[k] || AnyTurns(es, key, k, true))
      && (after.released[k] <==> before.released[k] || AnyTurns(es, key, k, false))
      && (after.down[k] <==> LeftOn(es, key, k) || (before.down[k] && !AnyTurns(es, key, k, false)))
    decreases |es|
  {
    if es != [] {
      var n := |es| - 1;
      AppliedMeaning(s, es[..n], key, k);
      ApplyOne(Applied(s, es[..n]), es[n], key, k);
      TurnedOn(es, key, k);
    }
  }

  /**
   The flags of a frame say exactly which keys (buttons) some event of the frame turned on and off;
   a key is held after it iff the frame left it on, or it was held before and nothing turned it off;
   so a key whose held state changed has the matching flag, and one with a single flag has that state.
   */
  lemma FrameMeaning(prev: Snapshot, es: seq<Event>, key: bool, k: nat)
    requires Whole(prev) && AllInRange(es) && k < Width(key)
    ensures
      var before, after := Part(prev, key), Part(Built(prev, es), key);
      && (after.pressed[k] <==> AnyTurns(es, key, k, true))
      && (after.released[k] <==> AnyTurns(es, key, k, false))
      && (after.down[k] <==> LeftOn(es, key, k) || (before.down[k] && !AnyTurns(es, key, k, false)))
      && (!before.down[k] && after.down[k] ==> after.pressed[k])
      && (before.down[k] && !after.down[k] ==> after.released[k])
      && (after.pressed[k] && !after.released[k] ==> after.down[k])
      && (after.released[k] && !after.pressed[k] ==> !after.down[k])
      && (!after.pressed[k] && !after.released[k] ==> after.down[k] == before.down[k])
  {
    AppliedMeaning(FrameStart(prev), es, key, k);
    if AnyTurns(es, key, k, true) && !AnyTurns(es, key, k, false) {
      assert LeftOn(es, key, k) by {
        var i :| 0 <= i < |es| && Turns(es[i], key, k, true);
      }
    }
    if LeftOn(es, key, k) {
      var i :| 0 <= i < |es| && Turns(es[i], key, k, true) && forall j | i < j < |es| :: !Turns(es[j], key, k, false);
      assert AnyTurns(es, key, k, true);
    }
  }

  // ---- Motion ---------------------------------------------------------------------------------

  predicate IsMove(e: Event) {
    e.category.Input? && e.kind.MouseMove?
  }

  function Wheel(es: seq<Event>): int {
    if es == [] then 0
    else
      var e := es[|es| - 1];
      Wheel(es[..|es| - 1]) + if e.category.Input? && e.kind.MouseWheel? then e.kind.delta else 0
  }

  // From event `from` on there is no mouse move: the wheel adds up into dx.
  lemma {:induction false} OnlyWheel(s: Snapshot, es: seq<Event>, from: nat)
    requires Whole(s) && AllInRange(es) && from <= |es| && forall i | from <= i < |es| :: !IsMove(es[i])
    ensures Applied(s, es).dx == Applied(s, es[..from]).dx + Wheel(es[from..])
    ensures Applied(s, es).dy == Applied(s, es[..from]).dy
    decreases |es|
  {
    if |es| == from {
      assert es[..from] == es;
    } else {
      var n := |es| - 1;
      OnlyWheel(s, es[..n], from);
      assert es[..n][..from] == es[..from];
      assert es[from..][..n - from] == es[..n][from..];
    }
  }

  /**
   Only the last mouse move of a frame is reported, plus the wheel turned after it; without a move
   all of the frame's wheel is reported as dx and dy is 0.
   */
  lemma Motion(prev: Snapshot, es: seq<Event>, last: Option<nat>)
    requires Whole(prev) && AllInRange(es)
    requires last.Some? ==> last.value < |es| && IsMove(es[last.value])
    requires forall i | 0 <= i < |es| && (last.Some? ==> i > last.value) :: !IsMove(es[i])
    ensures last.None? ==> Built(prev, es).dx == Wheel(es) && Built(prev, es).dy == 0
    ensures last.Some? ==>
              && Built(prev, es).dx == es[last.value].kind.dx + Wheel(es[last.value + 1..])
              && Built(prev, es).dy == es[last.value].kind.dy
  {
    if last.None? {
      WheelAlone(FrameStart(prev), es);
    } else {
      MovedThenWheel(FrameStart(prev), es, last.value);
    }
  }

  lemma WheelAlone(s: Snapshot, es: seq<Event>)
    requires Whole(s) && AllInRange(es) && forall i | 0 <= i < |es| :: !IsMove(es[i])
    ensures (Applied(s, es).dx, Applied(s, es).dy) == (s.dx + Wheel(es), s.dy)
  {
    OnlyWheel(s, es, 0);
    assert es[0..] == es && es[..0] == [];
  }

  lemma MovedThenWheel(s: Snapshot, es: seq<Event>, i: nat)
    requires Whole(s) && AllInRange(es) && i < |es| && IsMove(es[i])
    requires forall j | i < j < |es| :: !IsMove(es[j])
    ensures (Applied(s, es).dx, Applied(s, es).dy) == (es[i].kind.dx + Wheel(es[i + 1..]), es[i].kind.dy)
  {
    OnlyWheel(s, es, i + 1);
    assert es[..i + 1][..i] == es[..i];
  }

  // No event moves the mouse's position or touches the controller.
  lemma {:induction false} PositionKept(s: Snapshot, es: seq<Event>)
    requires Whole(s) && AllInRange(es)
    ensures (Applied(s, es).x, Applied(s, es).y, Applied(s, es).controller) == (s.x, s.y, s.controller)
    decreases |es|
  {
    if es != [] { PositionKept(s, es[..|es| - 1]); }
  }

  lemma BuiltKeeps(prev: Snapshot, es: seq<Event>)
    requires Whole(prev) && AllInRange(es)
    ensures (Built(prev, es).x, Built(prev, es).y, Built(prev, es).controller) == (prev.x, prev.y, prev.controller)
  {
    PositionKept(FrameStart(prev), es);
  }

  // ---- Window and category --------------------------------------------------------------------

  predicate IsResize(e: Event) {
    e.category.Input? && e.kind.Resized?
  }

  predicate IsFocus(e: Event) {
    e.category.Input? && (e.kind.FocusGained? || e.kind.FocusLost?)
  }

  lemma {:induction false} NoResize(s: Snapshot, es: seq<Event>, from: nat)
    requires Whole(s) && AllInRange(es) && from <= |es| && forall i | from <= i < |es| :: !IsResize(es[i])
    ensures Applied(s, es).width == Applied(s, es[..from]).width
    ensures Applied(s, es).height == Applied(s, es[..from]).height
    decreases |es|
  {
    if |es| == from {
      assert es[..from] == es;
    } else {
      var n := |es| - 1;
      NoResize(s, es[..n], from);
      assert es[..n][..from] == es[..from];
    }
  }

  lemma {:induction false} NoFocus(s: Snapshot, es: seq<Event>, from: nat)
    requires Whole(s) && AllInRange(es) && from <= |es| && forall i | from <= i < |es| :: !IsFocus(es[i])
    ensures Applied(s, es).focused == Applied(s, es[..from]).focused
    decreases |es|
  {
    if |es| == from {
      assert es[..from] == es;
    } else {
      var n := |es| - 1;
      NoFocus(s, es[..n], from);
      assert es[..n][..from] == es[..from];
    }
  }

  // The window has the size of the last resize, and the focus the last focus event says; else it keeps them.
  lemma WindowSize(prev: Snapshot, es: seq<Event>, last: Option<nat>)
    requires Whole(prev) && AllInRange(es)
    requires last.Some? ==> last.value < |es| && IsResize(es[last.value])
    requires forall i | 0 <= i < |es| && (last.Some? ==> i > last.value) :: !IsResize(es[i])
    ensures last.None? ==> (Built(prev, es).width, Built(prev, es).height) == (prev.width, prev.height)
    ensures last.Some? ==>
              var e := es[last.value].kind;
              (Built(prev, es).width, Built(prev, es).height) == (e.width, e.height)
  {
    if last.None? {
      NoResize(FrameStart(prev), es, 0);
      assert es[..0] == [];
    } else {
      var i := last.value;
      NoResize(FrameStart(prev), es, i + 1);
      assert es[..i + 1][..i] == es[..i];
    }
  }

  lemma WindowFocus(prev: Snapshot, es: seq<Event>, last: Option<nat>)
    requires Whole(prev) && AllInRange(es)
    requires last.Some? ==> last.value < |es| && IsFocus(es[last.value])
    requires forall i | 0 <= i < |es| && (last.Some? ==> i > last.value) :: !IsFocus(es[i])
    ensures Built(prev, es).focused == match last { case None => prev.focused case Some(i) => es[i].kind.FocusGained? }
  {
    if last.None? {
      NoFocus(FrameStart(prev), es, 0);
      assert es[..0] == [];
    } else {
      var i := last.value;
      NoFocus(FrameStart(prev), es, i + 1);
      assert es[..i + 1][..i] == es[..i];
    }
  }

  function InputOnly(es: seq<Event>): (r: seq<Event>)
    ensures AllInRange(es) ==> AllInRange(r)
    ensures forall i | 0 <= i < |r| :: r[i].category.Input?
  {
    if es == [] then []
    else InputOnly(es[..|es| - 1]) + if es[|es| - 1].category.Input? then [es[|es| - 1]] else []
  }

  // Events of another category than Input change nothing, whatever their type.
  lemma {:induction false} OnlyInputCounts(s: Snapshot, es: seq<Event>)
    requires Whole(s) && AllInRange(es)
    ensures Applied(s, es) == Applied(s, InputOnly(es))
    decreases |es|
  {
    if es != [] {
      var n := |es| - 1;
      OnlyInputCounts(s, es[..n]);
      if es[n].category.Input? {
        AppliedOneMore(s, InputOnly(es[..n]), es[n]);
      } else {
        assert InputOnly(es) == InputOnly(es[..n]);
      }
    }
  }

  lemma AppliedOneMore(s: Snapshot, front: seq<Event>, e: Event)
    requires Whole(s) && AllInRange(front) && InRange(e)
    ensures AllInRange(front + [e]) && Applied(s, front + [e]) == Apply(Applied(s, front), e)
  {
    assert (front + [e])[..|front|] == front;
  }

  // ---- Frames over a stream -------------------------------------------------------------------

  // What persists from frame to frame.
  datatype Held = Held(
    keys: seq<bool>,
    buttons: seq<bool>,
    x: int,
    y: int,
    focused: bool,
    width: int,
    height: int,
    controller: Controller)

  function HeldOf(s: Snapshot): Held {
    Held(s.keys.down, s.buttons.down, s.x, s.y, s.focused, s.width, s.height, s.controller)
  }

  lemma {:induction false} HeldOnly(s: Snapshot, t: Snapshot, es: seq<Event>)
    requires Whole(s) && Whole(t) && AllInRange(es) && HeldOf(s) == HeldOf(t)
    ensures HeldOf(Applied(s, es)) == HeldOf(Applied(t, es))
    decreases |es|
  {
    if es != [] {
      var n := |es| - 1;
      HeldOnly(s, t, es[..n]);
      HeldOnlyOne(Applied(s, es[..n]), Applied(t, es[..n]), es[n]);
    }
  }

  lemma HeldOnlyOne(s: Snapshot, t: Snapshot, e: Event)
    requires Whole(s) && Whole(t) && InRange(e) && HeldOf(s) == HeldOf(t)
    ensures HeldOf(Apply(s, e)) == HeldOf(Apply(t, e))
  {}

  lemma {:induction false} AppliedConcat(s: Snapshot, es: seq<Event>, fs: seq<Event>)
    requires Whole(s) && AllInRange(es) && AllInRange(fs)
    ensures AllInRange(es + fs) && Applied(s, es + fs) == Applied(Applied(s, es), fs)
    decreases |fs|
  {
    if fs == [] {
      assert es + fs == es;
    } else {
      var n := |fs| - 1;
      AppliedConcat(s, es, fs[..n]);
      assert (es + fs)[..|es| + n] == es + fs[..n];
    }
  }

  function Flat(frames: seq<seq<Event>>): seq<Event> {
    if frames == [] then [] else Flat(frames[..|frames| - 1]) + frames[|frames| - 1]
  }

  predicate FramesInRange(frames: seq<seq<Event>>) {
    forall i | 0 <= i < |frames| :: AllInRange(frames[i])
  }

  lemma {:induction false} FlatInRange(frames: seq<seq<Event>>)
    requires FramesInRange(frames)
    ensures AllInRange(Flat(frames))
    decreases |frames|
  {
    if frames != [] { FlatInRange(frames[..|frames| - 1]); }
  }

  function BuiltOver(s: Snapshot, frames: seq<seq<Event>>): (r: Snapshot)
    requires Whole(s) && FramesInRange(frames)
    ensures Whole(r)
  {
    if frames == [] then s else Built(BuiltOver(s, frames[..|frames| - 1]), frames[|frames| - 1])
  }

  // What is held after any frames depends on the events in order, and not on where the frames cut them.
  lemma {:induction false} HeldOverFrames(s: Snapshot, frames: seq<seq<Event>>)
    requires Whole(s) && FramesInRange(frames)
    ensures AllInRange(Flat(frames)) && HeldOf(BuiltOver(s, frames)) == HeldOf(Applied(s, Flat(frames)))
    decreases |frames|
  {
    FlatInRange(frames);
    if frames != [] {
      var front, last := frames[..|frames| - 1], frames[|frames| - 1];
      HeldOverFrames(s, front);
      AppliedConcat(s, Flat(front), last);
      HeldOnly(FrameStart(BuiltOver(s, front)), Applied(s, Flat(front)), last);
    }
  }

  lemma SplitsAgree(s: Snapshot, frames: seq<seq<Event>>, others: seq<seq<Event>>)
    requires Whole(s) && FramesInRange(frames) && FramesInRange(others) && Flat(frames) == Flat(others)
    ensures HeldOf(BuiltOver(s, frames)) == HeldOf(BuiltOver(s, others))
  {
    HeldOverFrames(s, frames);
    HeldOverFrames(s, others);
  }
}
