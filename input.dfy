/** The game's input buffer: the many-to-one table from physical keys to logical
    actions, the record of when each action was last pressed, the set of actions
    held down, and the "was this pressed recently" test used for jump buffering. */
module Input {

  datatype InputType = Up | Down | Left | Right

  // Physical key codes of the windowing library
  const KeySpace: int := 0x20
  const KeyA: int := 0x61
  const KeyD: int := 0x64
  const KeyS: int := 0x73
  const KeyW: int := 0x77
  const KeyLeft: int := 0xff51
  const KeyUp: int := 0xff52
  const KeyRight: int := 0xff53
  const KeyDown: int := 0xff54

  /** The control map built when the window is created. */
  const ControlMap: map<int, InputType> :=
    map[KeyUp := Up, KeyW := Up, KeySpace := Up,
        KeyDown := Down, KeyS := Down,
        KeyLeft := Left, KeyA := Left,
        KeyRight := Right, KeyD := Right]

  /** The physical keys bound to action `a`. */
  function KeysOf(a: InputType): set<int>
  {
    set k | k in ControlMap && ControlMap[k] == a
  }

  /** The time stamp recorded for an action that was never pressed, and the one
      a consumed buffer is reset to. */
  const NeverPressed: real := -1.0

  /** The input part of the window's state: last press time per action, and the
      actions currently held. */
  datatype InputState = InputState(lastPressed: map<InputType, real>, pressed: set<InputType>)

  const InitialInputs: InputState := InputState(map[], {})

  /** `last_pressed.get(a, -1)` */
  function LastPress(lastPressed: map<InputType, real>, a: InputType): real
  {
    if a in lastPressed then lastPressed[a] else NeverPressed
  }

  /** `is_buffered`: the action was pressed less than `window` before `now`. */
  predicate Buffered(lastPressed: map<InputType, real>, a: InputType, now: real, window: real)
  {
    LastPress(lastPressed, a) + window > now
  }

  /** `on_key_press` at clock value `now`. */
  function KeyPress(s: InputState, key: int, now: real): InputState
  {
    if key !in ControlMap then s
    else InputState(s.lastPressed[ControlMap[key] := now], s.pressed + {ControlMap[key]})
  }

  /** `on_key_release`. */
  function KeyRelease(s: InputState, key: int): InputState
  {
    if key !in ControlMap then s
    else s.(pressed := s.pressed - {ControlMap[key]})
  }

  /** `consume_buffer`. */
  function Consume(s: InputState, a: InputType): InputState
  {
    s.(lastPressed := s.lastPressed[a := NeverPressed])
  }

  /** The many-to-one table: UP, W and SPACE give UP, and every other action has
      exactly two keys. */
  lemma ControlMapBindings()
    ensures KeysOf(Up) == {KeyUp, KeyW, KeySpace}
    ensures KeysOf(Down) == {KeyDown, KeyS}
    ensures KeysOf(Left) == {KeyLeft, KeyA}
    ensures KeysOf(Right) == {KeyRight, KeyD}
    ensures ControlMap.Keys == KeysOf(Up) + KeysOf(Down) + KeysOf(Left) + KeysOf(Right)
  {
    assert KeyUp in KeysOf(Up) && KeyW in KeysOf(Up) && KeySpace in KeysOf(Up);
    assert KeyDown in KeysOf(Down) && KeyS in KeysOf(Down);
    assert KeyLeft in KeysOf(Left) && KeyA in KeysOf(Left);
    assert KeyRight in KeysOf(Right) && KeyD in KeysOf(Right);
  }

  /** A key outside the control map leaves the whole input state as it was,
      on press and on release. */
  lemma UnmappedKeyIgnored(s: InputState, key: int, now: real)
    requires key !in ControlMap
    ensures KeyPress(s, key, now) == s && KeyRelease(s, key) == s
  {
  }

  /** A press of any key bound to `a` stamps `a` with the current clock and marks
      it held; no other action's stamp changes. */
  lemma PressRecordsAction(s: InputState, key: int, now: real, a: InputType)
    requires key in KeysOf(a)
    ensures LastPress(KeyPress(s, key, now).lastPressed, a) == now
    ensures KeyPress(s, key, now).pressed == s.pressed + {a}
    ensures forall b :: b != a ==> LastPress(KeyPress(s, key, now).lastPressed, b) == LastPress(s.lastPressed, b)
  {
  }

  /** Release drops the action from the held set only: the time stamp survives,
      so a press just before a release is still buffered afterwards. */
  lemma ReleaseKeepsBuffer(s: InputState, key: int, now: real, window: real, a: InputType)
    requires key in KeysOf(a)
    ensures KeyRelease(s, key).lastPressed == s.lastPressed
    ensures KeyRelease(s, key).pressed == s.pressed - {a}
    ensures Buffered(KeyRelease(s, key).lastPressed, a, now, window) == Buffered(s.lastPressed, a, now, window)
  {
  }

  /** An action pressed at `t` is buffered exactly for clock values in
      `[t, t + window)` (and any earlier value), and no longer from `t + window` on. */
  lemma BufferWindow(s: InputState, key: int, t: real, now: real, window: real, a: InputType)
    requires key in KeysOf(a)
    ensures Buffered(KeyPress(s, key, t).lastPressed, a, now, window) <==> now < t + window
  {
  }

  /** A never-pressed action counts as pressed at time -1. */
  lemma NeverPressedSentinel(lastPressed: map<InputType, real>, a: InputType, now: real, window: real)
    requires a !in lastPressed
    ensures Buffered(lastPressed, a, now, window) <==> now < window - 1.0
  {
  }

  /** Consuming resets the stamp to -1: the action is no longer buffered once the
      clock has reached `window - 1`; the other actions are untouched. */
  lemma ConsumeClearsBuffer(s: InputState, a: InputType, now: real, window: real)
    requires now >= window - 1.0
    ensures !Buffered(Consume(s, a).lastPressed, a, now, window)
    ensures Consume(s, a).pressed == s.pressed
    ensures forall b :: b != a ==> LastPress(Consume(s, a).lastPressed, b) == LastPress(s.lastPressed, b)
  {
  }

  /** One input event delivered to the window. */
  datatype InputEvent = PressKey(key: int, at: real) | ReleaseKey(key: int) | ConsumeAction(action: InputType)

  function Apply(s: InputState, e: InputEvent): InputState
  {
    match e
    case PressKey(key, at) => KeyPress(s, key, at)
    case ReleaseKey(key) => KeyRelease(s, key)
    case ConsumeAction(b) => Consume(s, b)
  }

  function Replay(s: InputState, events: seq<InputEvent>): InputState
    decreases |events|
  {
    if events == [] then s else Replay(Apply(s, events[0]), events[1..])
  }

  /** No event stream without a press of one of `a`'s keys can make `a`'s stamp
      anything but -1 once it is -1. */
  lemma {:induction false} StampStaysNeverPressed(s: InputState, a: InputType, events: seq<InputEvent>)
    requires LastPress(s.lastPressed, a) == NeverPressed
    requires forall i :: 0 <= i < |events| && events[i].PressKey? ==> events[i].key !in KeysOf(a)
    ensures LastPress(Replay(s, events).lastPressed, a) == NeverPressed
    decreases |events|
  {
    if events != [] {
      var s' := Apply(s, events[0]);
      assert LastPress(s'.lastPressed, a) == NeverPressed by {
        match events[0]
        case PressKey(key, at) =>
          assert key !in KeysOf(a) by { assert events[0].key == key; }
        case ReleaseKey(key) =>
        case ConsumeAction(b) =>
      }
      forall i | 0 <= i < |events[1..]| && events[1..][i].PressKey?
        ensures events[1..][i].key !in KeysOf(a)
      {
        assert events[1..][i] == events[i + 1];
      }
      StampStaysNeverPressed(s', a, events[1..]);
    }
  }

  /** After `consume_buffer(a)` the action stays unbuffered, whatever releases,
      other presses and other consumptions follow, until one of its own keys is
      pressed again; this needs the clock to be at least `window - 1`. */
  lemma ConsumedUntilNextPress(s: InputState, a: InputType, events: seq<InputEvent>, now: real, window: real)
    requires now >= window - 1.0
    requires forall i :: 0 <= i < |events| && events[i].PressKey? ==> events[i].key !in KeysOf(a)
    ensures !Buffered(Replay(Consume(s, a), events).lastPressed, a, now, window)
  {
    StampStaysNeverPressed(Consume(s, a), a, events);
  }
}
