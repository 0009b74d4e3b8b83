/** Values shared by the game window and the sprites: an optional value, a
    two-component vector for forces, impulses and velocities, and the tuning
    constants of the game, which are parameters of this model. */
module Common {

  datatype Option<T> = None | Some(value: T)

  /** A force, impulse or velocity, (x, y). */
  datatype Vec = Vec(x: real, y: real)

  /** The tuning constants the game reads from its constants module. Their values
      are not fixed here: every property is proved for all of them, under the
      hypotheses each lemma states. */
  datatype Tuning = Tuning(
    inputBufferDuration: real,       // INPUT_BUFFER_DURATION
    coyoteDuration: real,            // COYOTE_DURATION
    decayRate: real,                 // DARKMATTER_DECAY_RATE
    decayMargin: real,               // DARKMATTER_DECAY_RATE_MARGIN
    horizontalSpeed: real,           // PLAYER_HORIZONTAL_SPEED
    accel: real,                     // PLAYER_ACCEL
    decel: real,                     // PLAYER_DECEL
    airAccelFactor: real,            // PLAYER_AIR_ACCEL_FACTOR
    jumpImpulse: real,               // PLAYER_JUMP_IMPULSE
    playerMass: real,                // PLAYER_MASS
    deadZone: real,                  // DEAD_ZONE
    distanceToChangeTexture: real    // DISTANCE_TO_CHANGE_TEXTURE
  )

  /** `abs` on reals. */
  function Abs(x: real): (r: real)
    ensures r >= 0.0 && (r == x || r == -x)
  {
    if x < 0.0 then -x else x
  }
}
