/** The player sprite, whose per-frame update turns input into force and jump
    requests for the physics engine and whose movement callback keeps its facing
    direction, odometers and animation pose; and the bullet sprite, which leaves
    the game once it falls below the screen. The physics engine itself is not
    modelled: its grounded test and movement reports are parameters, and the
    force and impulse it would be asked for are results. */
module Sprites {
  import opened Common
  import opened Input
  import opened Controller
  import opened Animation
  import opened Game

  /** The lowest `center_y` a bullet may reach before it is removed. */
  const BulletFloor: real := -100.0

  class PlayerSprite {
    const game: GameWindow
    const walkFrames: nat              // len(self.walk_textures)
    var facingDirection: Facing
    var curTexture: nat
    var xOdometer: real
    var yOdometer: real
    var velocity: Vec
    var texture: PlayerTexture
    var lastOnGround: real

    ghost predicate Valid()
      reads this
    {
      walkFrames > 0 && curTexture < walkFrames
    }

    /** The animation fields as a value. */
    function Anim(): AnimState
      reads this
    {
      AnimState(facingDirection, curTexture, xOdometer, yOdometer, velocity, texture)
    }

    /** `__init__`, with the number of walk textures found on disk. */
    constructor (game: GameWindow, walkFrames: nat)
      requires walkFrames > 0
      ensures this.game == game && this.walkFrames == walkFrames
      ensures Anim() == InitialAnim && lastOnGround == NeverGrounded
      ensures Valid()
    {
      this.game := game;
      this.walkFrames := walkFrames;
      facingDirection := RightFacing;
      curTexture := 0;
      xOdometer := 0.0;
      yOdometer := 0.0;
      velocity := Vec(0.0, 0.0);
      texture := IdleTexture(RightFacing);
      lastOnGround := NeverGrounded;
    }

    /** `on_update`: `onGround` is the engine's grounded test; the results are
        the force passed to `apply_force` and the impulse, if any, passed to
        `apply_impulse`. */
    method OnUpdate(onGround: bool) returns (force: Vec, impulse: Option<Vec>)
      requires Valid()
      modifies this`lastOnGround, game`lastPressed
      ensures Valid()
      ensures var c := ControlStep(game.tuning, old(lastOnGround), old(game.Inputs()), onGround, game.globalTime, velocity);
        && force == c.force && impulse == c.impulse
        && lastOnGround == c.lastOnGround && game.lastPressed == c.lastPressed
      ensures onGround && impulse.None? ==> lastOnGround == game.globalTime
    {
      ControlStepCases(game.tuning, lastOnGround, game.Inputs(), onGround, game.globalTime, velocity);
      if onGround {
        lastOnGround := game.globalTime;
      }

      // Horizontal movement
      var rightPressed := Right in game.pressedInputs;
      var leftPressed := Left in game.pressedInputs;
      var targetVel := TargetVelocity(rightPressed, leftPressed, game.tuning.horizontalSpeed);
      var accel := if targetVel != 0.0 then game.tuning.accel else game.tuning.decel;
      if !onGround {
        accel := accel * game.tuning.airAccelFactor;
      }
      assert accel == Acceleration(game.tuning, targetVel, onGround);
      var velDiff := targetVel - velocity.x;
      force := Vec(velDiff * accel, 0.0);
      HorizontalForceSteps(game.tuning, rightPressed, leftPressed, onGround, velocity.x, targetVel, accel);

      // Jump
      impulse := None;
      if game.IsBuffered(Up) && lastOnGround + game.tuning.coyoteDuration > game.globalTime {
        game.ConsumeBuffer(Up);
        var impulseAmount := game.tuning.jumpImpulse;
        if !onGround {
          impulseAmount := impulseAmount - velocity.y * game.tuning.playerMass;
        }
        assert JumpImpulse(game.tuning, onGround, velocity.y).y == impulseAmount;
        impulse := Some(Vec(0.0, impulseAmount));
        lastOnGround := NeverGrounded;
      }
    }

    /** `pymunk_moved`: the engine moved the player by `(dx, dy)`; `onGround` is
        its grounded test at that moment. */
    method PymunkMoved(dx: real, dy: real, onGround: bool)
      requires Valid()
      modifies this`facingDirection, this`curTexture, this`xOdometer, this`yOdometer, this`velocity, this`texture
      ensures Valid()
      ensures Anim() == Moved(game.tuning, walkFrames, old(Anim()), dx, dy, onGround)
    {
      ghost var s := Anim();
      xOdometer := xOdometer + dx;
      yOdometer := yOdometer + dy;
      velocity := Vec(dx * 60.0, dy * 60.0);

      // Figure out if we need to face left or right
      var deadZone := game.tuning.deadZone;
      if dx < -deadZone && facingDirection == RightFacing {
        facingDirection := LeftFacing;
      } else if dx > deadZone && facingDirection == LeftFacing {
        facingDirection := RightFacing;
      }
      assert facingDirection == NextFacing(s.facing, dx, deadZone);

      // Jumping animation
      if !onGround {
        if dy > deadZone {
          texture := JumpTexture(facingDirection);
          return;
        } else if dy < -deadZone {
          texture := FallTexture(facingDirection);
          return;
        }
      }

      // Idle animation
      if Abs(dx) <= deadZone {
        texture := IdleTexture(facingDirection);
        return;
      }

      // Have we moved far enough to change the texture?
      assert SelectPose(onGround, dx, dy, deadZone) == Walking;
      if Abs(xOdometer) > game.tuning.distanceToChangeTexture {
        xOdometer := 0.0;
        curTexture := (curTexture + 1) % walkFrames;
        texture := WalkTexture(curTexture, facingDirection);
      }
    }
  }

  class BulletSprite {
    var centerY: real    // written by the physics engine before each report

    constructor (centerY: real)
      ensures this.centerY == centerY
    {
      this.centerY := centerY;
    }

    /** `remove_from_sprite_lists`, for the one list a bullet belongs to. */
    method RemoveFromSpriteLists(game: GameWindow)
      modifies game`bulletList
      ensures game.bulletList == Without(old(game.bulletList), this)
    {
      game.bulletList := Without(game.bulletList, this);
    }

    /** `pymunk_moved`: a bullet below the screen leaves the bullet list. */
    method PymunkMoved(game: GameWindow)
      modifies game`bulletList
      ensures centerY < BulletFloor ==> game.bulletList == Without(old(game.bulletList), this)
      ensures centerY >= BulletFloor ==> game.bulletList == old(game.bulletList)
    {
      if centerY < BulletFloor {
        RemoveFromSpriteLists(game);
      }
    }
  }
}
