/** What the player does when the physics engine reports that it moved by
    `(dx, dy)`: the facing direction with its dead zone, the odometers, the
    velocity estimate, and the pose (jump, fall, idle or a walk frame).
    Textures are tags: the pose and the facing direction that pick the image. */
module Animation {
  import opened Common

  datatype Facing = RightFacing | LeftFacing

  datatype PlayerTexture =
    | IdleTexture(idleFacing: Facing)
    | JumpTexture(jumpFacing: Facing)
    | FallTexture(fallFacing: Facing)
    | WalkTexture(frame: nat, walkFacing: Facing)

  datatype Pose = Jumping | Falling | Idle | Walking

  /** The fields `pymunk_moved` reads and writes. */
  datatype AnimState = AnimState(
    facing: Facing,
    curTexture: nat,
    xOdometer: real,
    yOdometer: real,
    velocity: Vec,
    texture: PlayerTexture)

  /** The state of a freshly created player. */
  const InitialAnim: AnimState :=
    AnimState(RightFacing, 0, 0.0, 0.0, Vec(0.0, 0.0), IdleTexture(RightFacing))

  /** The facing update: turn left on a leftward move beyond the dead zone while
      facing right, turn right on a rightward one while facing left. */
  function NextFacing(f: Facing, dx: real, deadZone: real): Facing
  {
    if dx < -deadZone && f == RightFacing then LeftFacing
    else if dx > deadZone && f == LeftFacing then RightFacing
    else f
  }

  /** The branch `pymunk_moved` takes, in the order of its tests. */
  function SelectPose(onGround: bool, dx: real, dy: real, deadZone: real): Pose
  {
    if !onGround && dy > deadZone then Jumping
    else if !onGround && dy < -deadZone then Falling
    else if Abs(dx) <= deadZone then Idle
    else Walking
  }

  /** The walk branch moves to the next frame: far enough since the last one. */
  predicate AdvancesWalk(t: Tuning, s: AnimState, dx: real, dy: real, onGround: bool)
  {
    SelectPose(onGround, dx, dy, t.deadZone) == Walking && Abs(s.xOdometer + dx) > t.distanceToChangeTexture
  }

  /** `PlayerSprite.pymunk_moved` with `walkFrames` walk textures. The velocity
      estimate assumes the engine reports once per 1/60 s. */
  function Moved(t: Tuning, walkFrames: nat, s: AnimState, dx: real, dy: real, onGround: bool): AnimState
    requires walkFrames > 0
  {
    var f := NextFacing(s.facing, dx, t.deadZone);
    var moved := s.(xOdometer := s.xOdometer + dx, yOdometer := s.yOdometer + dy,
                    velocity := Vec(dx * 60.0, dy * 60.0), facing := f);
    match SelectPose(onGround, dx, dy, t.deadZone)
    case Jumping => moved.(texture := JumpTexture(f))
    case Falling => moved.(texture := FallTexture(f))
    case Idle => moved.(texture := IdleTexture(f))
    case Walking =>
      if Abs(moved.xOdometer) > t.distanceToChangeTexture then
        var c := (s.curTexture + 1) % walkFrames;
        moved.(xOdometer := 0.0, curTexture := c, texture := WalkTexture(c, f))
      else moved
  }

  /** Facing hysteresis: the direction changes only on a move beyond the dead
      zone against the current facing, and then to that move's direction; a move
      within the dead zone never changes it. */
  lemma FacingHysteresis(t: Tuning, walkFrames: nat, s: AnimState, dx: real, dy: real, onGround: bool)
    requires walkFrames > 0
    ensures var f := Moved(t, walkFrames, s, dx, dy, onGround).facing;
      && (f != s.facing <==> (dx < -t.deadZone && s.facing == RightFacing) || (dx > t.deadZone && s.facing == LeftFacing))
      && (t.deadZone >= 0.0 && f != s.facing ==> (f == LeftFacing <==> dx < 0.0))
      && (Abs(dx) <= t.deadZone ==> f == s.facing)
  {
  }

  /** The pose chosen, in order: rising in the air beyond the dead zone is the
      jump pose, falling in the air beyond it the fall pose, a horizontal move
      within the dead zone the idle pose, anything else the walk cycle. Every
      pose faces the updated direction. */
  lemma PoseSelection(t: Tuning, walkFrames: nat, s: AnimState, dx: real, dy: real, onGround: bool)
    requires walkFrames > 0
    ensures var r := Moved(t, walkFrames, s, dx, dy, onGround);
      && (!onGround && dy > t.deadZone ==> r.texture == JumpTexture(r.facing))
      && (!onGround && dy < -t.deadZone && !(dy > t.deadZone) ==> r.texture == FallTexture(r.facing))
      && ((onGround || -t.deadZone <= dy <= t.deadZone) && Abs(dx) <= t.deadZone ==> r.texture == IdleTexture(r.facing))
      && (SelectPose(onGround, dx, dy, t.deadZone) == Walking <==>
            (onGround || -t.deadZone <= dy <= t.deadZone) && Abs(dx) > t.deadZone)
  {
  }

  /** The odometers always take the move first; only the walk branch, once the
      horizontal odometer is beyond the frame distance, resets it to zero and
      steps the walk frame cyclically. The jump, fall and idle branches keep the
      frame index, and so does a walk that has not gone far enough, which also
      keeps the texture it had. */
  lemma OdometerAndWalkCycle(t: Tuning, walkFrames: nat, s: AnimState, dx: real, dy: real, onGround: bool)
    requires walkFrames > 0
    ensures var r := Moved(t, walkFrames, s, dx, dy, onGround);
      && r.yOdometer == s.yOdometer + dy
      && r.velocity == Vec(60.0 * dx, 60.0 * dy)
      && (AdvancesWalk(t, s, dx, dy, onGround) ==>
            r.xOdometer == 0.0 && r.curTexture == (s.curTexture + 1) % walkFrames
            && r.texture == WalkTexture(r.curTexture, r.facing))
      && (!AdvancesWalk(t, s, dx, dy, onGround) ==>
            r.xOdometer == s.xOdometer + dx && r.curTexture == s.curTexture)
      && (SelectPose(onGround, dx, dy, t.deadZone) == Walking && !AdvancesWalk(t, s, dx, dy, onGround) ==>
            r.texture == s.texture)
  {
  }

  /** The walk frame index stays a valid index into the walk textures. */
  lemma WalkFrameInRange(t: Tuning, walkFrames: nat, s: AnimState, dx: real, dy: real, onGround: bool)
    requires walkFrames > 0 && s.curTexture < walkFrames
    ensures Moved(t, walkFrames, s, dx, dy, onGround).curTexture < walkFrames
  {
  }

  /** One movement report from the physics engine. */
  datatype Move = Move(dx: real, dy: real, onGround: bool)

  /** The state after a run of movement reports. */
  function MovedAll(t: Tuning, walkFrames: nat, s: AnimState, moves: seq<Move>): AnimState
    requires walkFrames > 0
    decreases |moves|
  {
    if moves == [] then s
    else MovedAll(t, walkFrames, Moved(t, walkFrames, s, moves[0].dx, moves[0].dy, moves[0].onGround), moves[1..])
  }

  /** However long a run of moves stays within the dead zone horizontally, the
      player never turns. */
  lemma {:induction false} NoTurnWithinDeadZone(t: Tuning, walkFrames: nat, s: AnimState, moves: seq<Move>)
    requires walkFrames > 0
    requires forall i :: 0 <= i < |moves| ==> Abs(moves[i].dx) <= t.deadZone
    ensures MovedAll(t, walkFrames, s, moves).facing == s.facing
    decreases |moves|
  {
    if moves != [] {
      var m := moves[0];
      FacingHysteresis(t, walkFrames, s, m.dx, m.dy, m.onGround);
      var s' := Moved(t, walkFrames, s, m.dx, m.dy, m.onGround);
      assert forall i :: 0 <= i < |moves[1..]| ==> moves[1..][i] == moves[i + 1];
      NoTurnWithinDeadZone(t, walkFrames, s', moves[1..]);
    }
  }

  /** Over any run of moves the walk frame index stays in `[0, walkFrames)`. */
  lemma {:induction false} WalkFrameAlwaysInRange(t: Tuning, walkFrames: nat, s: AnimState, moves: seq<Move>)
    requires walkFrames > 0 && s.curTexture < walkFrames
    ensures MovedAll(t, walkFrames, s, moves).curTexture < walkFrames
    decreases |moves|
  {
    if moves != [] {
      var m := moves[0];
      WalkFrameInRange(t, walkFrames, s, m.dx, m.dy, m.onGround);
      WalkFrameAlwaysInRange(t, walkFrames, Moved(t, walkFrames, s, m.dx, m.dy, m.onGround), moves[1..]);
    }
  }
}
