/** What the player's per-frame update decides, as values: the horizontal force
    it asks the physics engine for, and whether it asks for a jump impulse,
    given the input buffer, the grounded flag reported by the engine and the
    player's velocity. */
module Controller {
  import opened Common
  import opened Input

  /** `last_on_ground` of a player that has not touched the ground since its
      creation or its last jump. */
  const NeverGrounded: real := -1.0

  /** A held flag as the 0 or 1 that boolean subtraction gives. */
  function Flag(b: bool): int
  {
    if b then 1 else 0
  }

  /** `(right_pressed - left_pressed) * PLAYER_HORIZONTAL_SPEED` */
  function TargetVelocity(right: bool, left: bool, speed: real): (v: real)
    ensures right == left ==> v == 0.0
    ensures right && !left ==> v == speed
    ensures left && !right ==> v == -speed
  {
    (Flag(right) - Flag(left)) as real * speed
  }

  /** `PLAYER_ACCEL` while steering, `PLAYER_DECEL` when the target is zero, both
      scaled by `PLAYER_AIR_ACCEL_FACTOR` in the air. */
  function Acceleration(t: Tuning, target: real, onGround: bool): real
  {
    var base := if target != 0.0 then t.accel else t.decel;
    if onGround then base else base * t.airAccelFactor
  }

  /** The force requested each frame: proportional to the gap between the target
      and the current horizontal velocity, never vertical. */
  function HorizontalForce(t: Tuning, right: bool, left: bool, onGround: bool, vx: real): Vec
  {
    var target := TargetVelocity(right, left, t.horizontalSpeed);
    Vec((target - vx) * Acceleration(t, target, onGround), 0.0)
  }

  /** The force from a target and an acceleration computed step by step. */
  lemma HorizontalForceSteps(t: Tuning, right: bool, left: bool, onGround: bool, vx: real, target: real, accel: real)
    requires target == TargetVelocity(right, left, t.horizontalSpeed)
    requires accel == Acceleration(t, target, onGround)
    ensures HorizontalForce(t, right, left, onGround, vx) == Vec((target - vx) * accel, 0.0)
  {
  }

  /** The jump test: UP is buffered and the player was on the ground less than
      `COYOTE_DURATION` ago. */
  predicate CanJump(upBuffered: bool, lastOnGround: real, now: real, coyote: real)
  {
    upBuffered && lastOnGround + coyote > now
  }

  /** The impulse of a jump: the full jump impulse on the ground; in the air, less
      the player's current vertical momentum. */
  function JumpImpulse(t: Tuning, onGround: bool, vy: real): Vec
  {
    Vec(0.0, if onGround then t.jumpImpulse else t.jumpImpulse - vy * t.playerMass)
  }

  /** The outcome of one update: force and optional impulse requested, and the
      new `last_on_ground` and `last_pressed`. */
  datatype Control = Control(force: Vec, impulse: Option<Vec>, lastOnGround: real, lastPressed: map<InputType, real>)

  /** `PlayerSprite.on_update` at clock `now`. */
  function ControlStep(t: Tuning, lastOnGround: real, inputs: InputState, onGround: bool, now: real, velocity: Vec): Control
  {
    var grounded := if onGround then now else lastOnGround;
    var force := HorizontalForce(t, Right in inputs.pressed, Left in inputs.pressed, onGround, velocity.x);
    if CanJump(Buffered(inputs.lastPressed, Up, now, t.inputBufferDuration), grounded, now, t.coyoteDuration) then
      Control(force, Some(JumpImpulse(t, onGround, velocity.y)), NeverGrounded, Consume(inputs, Up).lastPressed)
    else
      Control(force, None, grounded, inputs.lastPressed)
  }

  /** `ControlStep` case by case, in the order the update makes its decisions. */
  lemma ControlStepCases(t: Tuning, lastOnGround: real, inputs: InputState, onGround: bool, now: real, velocity: Vec)
    ensures var c := ControlStep(t, lastOnGround, inputs, onGround, now, velocity);
      var grounded := if onGround then now else lastOnGround;
      var jump := CanJump(Buffered(inputs.lastPressed, Up, now, t.inputBufferDuration), grounded, now, t.coyoteDuration);
      && c.force == HorizontalForce(t, Right in inputs.pressed, Left in inputs.pressed, onGround, velocity.x)
      && (jump ==> c.impulse == Some(JumpImpulse(t, onGround, velocity.y))
                   && c.lastOnGround == NeverGrounded && c.lastPressed == inputs.lastPressed[Up := NeverPressed])
      && (!jump ==> c.impulse == None && c.lastOnGround == grounded && c.lastPressed == inputs.lastPressed)
  {
  }

  /** The target is zero exactly when both or neither direction is held (for a
      nonzero speed), and then the deceleration constant is used; the air factor
      applies exactly off the ground. */
  lemma AccelerationChoice(t: Tuning, right: bool, left: bool, onGround: bool)
    requires t.horizontalSpeed != 0.0
    ensures TargetVelocity(right, left, t.horizontalSpeed) == 0.0 <==> right == left
    ensures var a := Acceleration(t, TargetVelocity(right, left, t.horizontalSpeed), onGround);
      var base := if right == left then t.decel else t.accel;
      a == if onGround then base else base * t.airAccelFactor
  {
  }

  /** With positive gains the force always pushes the horizontal velocity
      towards the target, and vanishes exactly at the target. */
  lemma ForceTowardsTarget(t: Tuning, right: bool, left: bool, onGround: bool, vx: real)
    requires t.accel > 0.0 && t.decel > 0.0 && t.airAccelFactor > 0.0
    ensures var target := TargetVelocity(right, left, t.horizontalSpeed);
      var f := HorizontalForce(t, right, left, onGround, vx);
      && f.y == 0.0
      && (f.x > 0.0 <==> vx < target)
      && (f.x < 0.0 <==> vx > target)
      && (f.x == 0.0 <==> vx == target)
  {
    var target := TargetVelocity(right, left, t.horizontalSpeed);
    var a := Acceleration(t, target, onGround);
    assert a > 0.0 by {
      var base := if target != 0.0 then t.accel else t.decel;
      assert base > 0.0;
      if !onGround {
        assert a == base * t.airAccelFactor;
      }
    }
    ProductSign(target - vx, a);
  }

  /** Multiplying by a positive factor keeps the sign. */
  lemma ProductSign(d: real, a: real)
    requires a > 0.0
    ensures d * a > 0.0 <==> d > 0.0
    ensures d * a < 0.0 <==> d < 0.0
  {
    if d > 0.0 {
      assert d * a > 0.0;
    } else if d < 0.0 {
      assert (-d) * a > 0.0;
    }
  }

  /** An airborne jump cancels the current vertical momentum, so the momentum
      right after the jump is the jump impulse whatever the vertical speed. */
  lemma AirJumpMomentum(t: Tuning, vy: real)
    ensures vy * t.playerMass + JumpImpulse(t, false, vy).y == t.jumpImpulse
    ensures JumpImpulse(t, false, vy).x == 0.0 && JumpImpulse(t, true, vy) == Vec(0.0, t.jumpImpulse)
  {
  }

  /** Standing on the ground refreshes `last_on_ground` to the clock, and the
      update jumps exactly when UP is buffered and the player is on the ground or
      left it less than `COYOTE_DURATION` ago. A jump consumes UP and clears
      `last_on_ground`; no jump leaves `last_pressed` alone. */
  lemma JumpDecision(t: Tuning, lastOnGround: real, inputs: InputState, onGround: bool, now: real, velocity: Vec)
    requires t.coyoteDuration > 0.0
    ensures var c := ControlStep(t, lastOnGround, inputs, onGround, now, velocity);
      && (c.impulse.Some? <==>
            Buffered(inputs.lastPressed, Up, now, t.inputBufferDuration)
            && (onGround || now - lastOnGround < t.coyoteDuration))
      && (c.impulse.Some? ==>
            c.impulse == Some(JumpImpulse(t, onGround, velocity.y))
            && c.lastOnGround == NeverGrounded && c.lastPressed == inputs.lastPressed[Up := NeverPressed])
      && (c.impulse.None? ==>
            c.lastOnGround == (if onGround then now else lastOnGround) && c.lastPressed == inputs.lastPressed)
      && c.force == HorizontalForce(t, Right in inputs.pressed, Left in inputs.pressed, onGround, velocity.x)
  {
  }

  /** One press gives one jump: a second update at the same clock value, with no
      new press in between, does not jump again, on the ground or not (as long
      as the clock has reached `INPUT_BUFFER_DURATION - 1`, the -1 stamp of a
      consumed buffer). */
  lemma OneJumpPerPress(t: Tuning, lastOnGround: real, inputs: InputState, onGround: bool, onGround': bool,
                        now: real, velocity: Vec, velocity': Vec)
    requires now >= t.inputBufferDuration - 1.0
    ensures var c := ControlStep(t, lastOnGround, inputs, onGround, now, velocity);
      var c' := ControlStep(t, c.lastOnGround, inputs.(lastPressed := c.lastPressed), onGround', now, velocity');
      c.impulse.Some? ==> c'.impulse.None?
  {
    var c := ControlStep(t, lastOnGround, inputs, onGround, now, velocity);
    if c.impulse.Some? {
      ConsumeClearsBuffer(inputs, Up, now, t.inputBufferDuration);
      assert c.lastPressed == Consume(inputs, Up).lastPressed;
    }
  }
}
