/** One frame of the game window's `on_update`, in the order the window runs it:
    advance the clock, update the player, run the dark matter spread pass, then
    step the physics engine (not modelled: its grounded test, the clock reading
    and the random draws are parameters). Also the bullet/wall collision
    handler the window registers. */
module Frame {
  import opened Common
  import opened Controller
  import opened Game
  import opened Sprites

  /** `GameWindow.on_update(deltaTime)`. `onGround` is the engine's grounded
      test for the player; `now` is the clock reading used for spreading; `order`,
      `choices` and `rs` are the `sample`, `choice` and `random` draws. The
      results are the force and the optional jump impulse the player asks the
      engine for. */
  method OnUpdate(game: GameWindow, player: PlayerSprite, deltaTime: real, onGround: bool,
                  now: real, order: seq<nat>, choices: seq<nat>, rs: seq<real>)
    returns (force: Vec, impulse: Option<Vec>)
    requires player.game == game && player.Valid() && game.Ready()
    requires VisitsAll(order, game.blocks.Length)
    requires |choices| == game.blocks.Length && |rs| == game.blocks.Length
    requires forall k :: 0 <= k < |rs| ==> 0.0 <= rs[k] < 1.0
    modifies game`globalTime, game`lastPressed, player`lastOnGround
    modifies game.blocks, game`lastSpread, game`nextSpread
    ensures player.Valid() && game.Ready()
    ensures game.globalTime == old(game.globalTime) + deltaTime
    ensures deltaTime >= 0.0 ==> game.globalTime >= old(game.globalTime)
    // the player decides from the clock already advanced
    ensures var c := ControlStep(game.tuning, old(player.lastOnGround), old(game.Inputs()), onGround,
                                 game.globalTime, player.velocity);
      && force == c.force && impulse == c.impulse
      && player.lastOnGround == c.lastOnGround && game.lastPressed == c.lastPressed
    ensures game.pressedInputs == old(game.pressedInputs)
    // then the spread pass, at clock reading `now`
    ensures SpreadEffect(game.tuning, now, rs, old(game.blocks[..]), game.blocks[..],
                         old(game.lastSpread), old(game.nextSpread), game.lastSpread, game.nextSpread)
  {
    game.AdvanceClock(deltaTime);
    force, impulse := player.OnUpdate(onGround);
    game.SpreadPass(now, order, choices, rs);
  }

  /** The bullet/wall handler: the bullet leaves the bullet list; a second
      contact reported for the same bullet changes nothing more. */
  method WallHitHandler(game: GameWindow, bullet: BulletSprite)
    modifies game`bulletList
    ensures game.bulletList == Without(old(game.bulletList), bullet)
    ensures bullet !in game.bulletList
  {
    bullet.RemoveFromSpriteLists(game);
  }
}
