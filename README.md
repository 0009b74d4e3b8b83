# pyweek36 platformer core, modelled in Dafny

The game is a small platformer on top of a sprite framework and a rigid-body
physics engine. The logic the game owns, and which this project models and
proves properties of, is:

- **the input buffer** of the game window: a many-to-one table from physical
  keys to the actions UP, DOWN, LEFT and RIGHT; the time each action was last
  pressed; the set of actions held; the "pressed less than
  `INPUT_BUFFER_DURATION` ago" test; and its consumption (`input.dfy`, and
  `game.dfy` for the window's methods);
- **the dark matter spread automaton**: tiles on a grid are `solid`,
  `darkmatter`, `source` or something else. Each frame the tiles are visited in
  a random order, and every dark matter or source tile finds its orthogonal
  solid neighbours. Once the spread timer has elapsed, one of them turns into
  dark matter and the timer is rescheduled `RATE * (1 + MARGIN * (2r - 1))`
  later (`tiles.dfy`, `game.dfy`);
- **the player controller**: each frame, held and buffered input plus the
  grounded flag become a horizontal force and possibly a jump impulse, with
  coyote time (`controller.dfy`, `sprites.dfy`);
- **the player's movement callback**: facing direction with a dead zone,
  odometers, velocity estimate and the animation pose with its walk cycle
  (`animation.dfy`, `sprites.dfy`);
- **bullet removal** below the screen and on wall contact (`sprites.dfy`,
  `frame.dfy`);
- **the frame sequence** of the window's `on_update`: clock, player, spread
  (`frame.dfy`).

Layout. `Common` holds an option type, a 2-vector and `Tuning`, the game's
constants, which are parameters here. The window's state is the class
`Game.GameWindow` (clock, `last_pressed`, `pressed_inputs`, the tile array, the
bullet list, the spread schedule). The sprites are `Sprites.PlayerSprite` and
`Sprites.BulletSprite`, which refer back to the window as the source's sprites
do. Since the window's `on_update` calls into the player, the frame sequence is
the method `Frame.OnUpdate`, taking the window and the player. The window
itself cannot hold the player without a module cycle.
Each state-changing method is specified by a pure function of the old state
(`Input.KeyPress`, `Input.Consume`, `Controller.ControlStep`,
`Animation.Moved`, `Tiles.AdjacentBlocks`, ...). The properties are lemmas about
those functions, or postconditions of the methods.

Modelling choices:

- Times, positions and velocities are `real`. They are only added, multiplied
  and compared, and float rounding is not modelled.
- Tiles are unit grid cells `(col, row)`. The neighbour test reads each tile's
  edges, which the sprite framework takes from the tile's hit box (the map is
  loaded with the `"Detailed"` hit box algorithm). The model assumes that every
  tile's hit box fills its grid cell. The tile size then scales every edge and
  centre coordinate by the same positive factor, which preserves the equalities
  the neighbour test compares. The test itself is kept edge by edge
  (`Tiles.Touching`) and proved equal to orthogonal adjacency. Sprite identity
  (`block == other_block`) is index identity in the tile array.
- The engine's grounded test and movement reports are parameters of the methods
  that use them. The force and impulse the player would pass to the engine are
  results. Textures are tags (pose and facing, or the map texture).
- `sample`, `choice` and `random` are parameters of the spread pass:
  - an order that visits every tile;
  - per visit, a natural number whose remainder modulo the number of candidates
    picks the neighbour (every valid index is reachable);
  - per visit, a draw in `[0, 1)`.
- Every reading of the spread clock during one pass is the one parameter `now`.
- Tile types are `Tiles.TileKind`: `solid`, `darkmatter`, `source`, or
  `OtherKind(name)` for any other string. `Tiles.KindOf` reads a type string,
  and the game's string tests become tests on the kind (`Tiles.KindTests`).

Behaviour of the program that the contracts make explicit:

- The buffer test is strict: an action is buffered while
  `now < last_press + INPUT_BUFFER_DURATION`.
- A consumed or never-pressed action is stamped `-1`. So "consumed means not
  buffered" holds only once the clock has reached `INPUT_BUFFER_DURATION - 1`,
  and every lemma about consumption says so.
- `on_update` advances the clock, updates the player, then runs the spread pass.
- The spread timer is read from `perf_counter`, a clock separate from the
  simulation time. The model takes that reading as the parameter `now`.
- The walk odometer resets to zero when the frame advances. The part of the
  distance beyond the threshold is discarded.

## Model

| member | source | states |
|---|---|---|
| Input.Buffered | pyweek36/main.py:140-141 | definition: the action's last press time, -1 when there is none, plus `INPUT_BUFFER_DURATION` exceeds the clock |
| Input.KeyPress | pyweek36/main.py:127-132 | definition: a key outside the control map leaves the state as it is; a mapped key stamps its action with the clock and adds it to the held set |
| Input.KeyRelease | pyweek36/main.py:134-138 | definition: a key outside the control map leaves the state as it is; a mapped key removes its action from the held set |
| Input.Consume | pyweek36/main.py:143-144 | definition: the action's stamp becomes -1, everything else is kept |
| Input.ControlMapBindings | pyweek36/main.py:34-40 | UP, W and SPACE map to UP; DOWN and LEFT and RIGHT each have exactly two keys; the map has no other keys |
| Input.UnmappedKeyIgnored | pyweek36/main.py:127-138 | a key outside the control map changes neither the press times nor the held set, on press or release |
| Input.PressRecordsAction | pyweek36/main.py:127-132 | a press of any key of action `a` stamps `a` with the clock and adds `a` to the held set; other actions' stamps are unchanged |
| Input.ReleaseKeepsBuffer | pyweek36/main.py:134-138 | a release removes the action from the held set only; its stamp, and so whether it is buffered, is unchanged |
| Input.BufferWindow | pyweek36/main.py:140-141 | an action pressed at `t` is buffered at clock `now` iff `now < t + INPUT_BUFFER_DURATION` |
| Input.NeverPressedSentinel | pyweek36/main.py:140-141 | a never-pressed action is buffered iff `now < INPUT_BUFFER_DURATION - 1`, i.e. it counts as pressed at -1 |
| Input.ConsumeClearsBuffer | pyweek36/main.py:143-144 | after consumption the action is not buffered once `now >= INPUT_BUFFER_DURATION - 1`; the held set and the other stamps are unchanged |
| Input.StampStaysNeverPressed | pyweek36/main.py:127-144 | once an action's stamp is -1, no run of releases, other presses and consumptions changes it |
| Input.ConsumedUntilNextPress | pyweek36/main.py:127-144 | after consumption the action stays unbuffered through any events up to the next press of one of its own keys, once `now >= INPUT_BUFFER_DURATION - 1` |
| Game.GameWindow.constructor | pyweek36/main.py:19-41 | clock 0, no stamps, nothing held, no tiles, no bullets, no spread scheduled |
| Game.GameWindow.Setup | pyweek36/main.py:114-125 | installs the map's tiles, clears the bullets, sets the last spread to the clock and the next one to clock + `SpreadDelay(r)`; clock and input unchanged |
| Game.GameWindow.OnKeyPress | pyweek36/main.py:127-132 | the new input state is `KeyPress(old state, key, clock)` |
| Game.GameWindow.OnKeyRelease | pyweek36/main.py:134-138 | the new input state is `KeyRelease(old state, key)` |
| Game.GameWindow.IsBuffered | pyweek36/main.py:140-141 | true iff less than `INPUT_BUFFER_DURATION` has passed since the last press, a never-pressed action counting as pressed at -1 |
| Game.GameWindow.ConsumeBuffer | pyweek36/main.py:143-144 | the new input state is `Consume(old state, a)`: stamp -1, held set unchanged |
| Game.GameWindow.AdvanceClock | pyweek36/main.py:175 | the clock grows by `delta_time`, so it never decreases when `delta_time >= 0` |
| Tiles.Touching | pyweek36/main.py:50-59 | definition: the four edge-and-centre comparisons of the neighbour test, joined by `or` |
| Tiles.TouchingIsOrthogonal | pyweek36/main.py:50-59 | the edge test holds exactly for same row and adjacent column or same column and adjacent row; it is symmetric and never holds on one cell |
| Tiles.AdjacentUpTo | pyweek36/main.py:43-61 | definition: the neighbour list after the loop has looked at the first `n` tiles, skipping tile `i` and appending each tile that passes the edge test |
| Tiles.AdjacentUpToMembers | pyweek36/main.py:43-61 | the list of the first `n` tiles' neighbours holds, in increasing index order, exactly the other tiles before `n` that pass the edge test with tile `i` |
| Tiles.AdjacentBlocksOrthogonal | pyweek36/main.py:43-61 | the reported neighbours are, in increasing order, exactly the other tiles sharing an edge with tile `i` |
| Game.GameWindow.FindAdjacentBlocks | pyweek36/main.py:43-61 | the loop returns exactly the indices of the other tiles sharing an edge with tile `i`, in list order; never `i` itself |
| Tiles.SolidAmong | pyweek36/main.py:183-185 | keeps exactly the solid tiles among the candidates |
| Game.GameWindow.SolidNeighbours | pyweek36/main.py:182-185 | the candidates are exactly the other solid tiles touching tile `i`, and there is one iff tile `i` has a solid neighbour |
| Tiles.KindRoundTrip | pyweek36/main.py:181 | type strings and tile kinds correspond one to one: a string read as a kind gives the string back, and every kind is read back from its name |
| Tiles.KindTests | pyweek36/main.py:180-184 | the membership test in `["darkmatter", "source"]` is `Spreadable` of the kind, and the test `== "solid"` is the `Solid` kind |
| Tiles.SpreadDelay | pyweek36/main.py:123-125 | definition: `DARKMATTER_DECAY_RATE * (1 + DARKMATTER_DECAY_RATE_MARGIN * (2r - 1))` for a draw `r` |
| Tiles.SpreadDelayBounds | pyweek36/main.py:121-125 | for `r` in `[0, 1)` the delay lies in `[RATE*(1-MARGIN), RATE*(1+MARGIN))` when `RATE*MARGIN > 0`; it is at least the lower bound when `RATE*MARGIN >= 0` |
| Tiles.DelayPositiveAt | pyweek36/main.py:190-193 | when `RATE*(1-MARGIN) > 0` and `RATE*(1+MARGIN) >= 0` (`OneSpreadPerPass`), every rescheduling from a draw in `[0, 1)` lies strictly in the future |
| Tiles.DelayNotPositiveSomewhere | pyweek36/main.py:190-193 | under any other constants some draw in `[0, 1)` gives a delay `<= 0`, so a rescheduling need not lie in the future |
| Tiles.SpreadDelayPositive | pyweek36/main.py:190-193 | every draw in `[0, 1)` gives a positive delay iff `RATE*(1-MARGIN) > 0` and `RATE*(1+MARGIN) >= 0` |
| Game.GameWindow.VisitTile | pyweek36/main.py:180-193 | a visit converts a solid neighbour of a dark matter or source tile exactly when the timer has elapsed and one exists, then reschedules; otherwise nothing changes |
| Game.SpreadStep | pyweek36/main.py:186-189 | converting a solid tile next to a dark matter or source tile keeps every changed tile a conversion with a spreading neighbour |
| Game.SpreadFromNeighbour | pyweek36/main.py:182-189 | every tile changed by conversions has a dark matter or source neighbour |
| Game.SpreadEffect | pyweek36/main.py:178-193 | definition of what one pass does to the tiles and the schedule, as stated in the next row |
| Game.GameWindow.SpreadPass | pyweek36/main.py:178-193 | `SpreadEffect`: only solid tiles touching a dark matter or source tile change, and only into dark matter. Nothing changes if `now <= next_spread`. The schedule moves iff a tile converts, to `last_spread = now` and `next_spread = now + delay` for one of the draws. At most one tile converts when every delay is positive (`OneSpreadPerPass`, exactly the constants of `Tiles.SpreadDelayPositive`), and at least one when the timer has elapsed and some dark matter or source tile has a solid neighbour |
| Frame.OnUpdate | pyweek36/main.py:172-196 | advances the clock; the player decides from the advanced clock; then the tiles and the schedule satisfy the whole of `SpreadEffect`, as for `SpreadPass`; the held keys are unchanged |
| Controller.ControlStep | pyweek36/sprites.py:65-92 | definition of one player update: grounded refresh, horizontal force, and the jump with UP consumed and `last_on_ground` reset when UP is buffered within coyote time |
| Controller.TargetVelocity | pyweek36/sprites.py:73-75 | 0 when both or neither direction is held, the speed for right only, minus the speed for left only |
| Controller.AccelerationChoice | pyweek36/sprites.py:73-78 | the target is zero iff both or neither direction is held; `PLAYER_DECEL` is used exactly then, `PLAYER_ACCEL` otherwise, scaled by the air factor exactly off the ground |
| Controller.ForceTowardsTarget | pyweek36/sprites.py:72-80 | the force has no vertical part and, with positive gains, pushes the horizontal velocity towards the target, vanishing exactly at it |
| Controller.AirJumpMomentum | pyweek36/sprites.py:88-91 | the impulse is `(0, PLAYER_JUMP_IMPULSE)` on the ground and cancels the vertical momentum in the air, so momentum after an air jump is the jump impulse |
| Controller.JumpDecision | pyweek36/sprites.py:65-92 | grounded sets `last_on_ground` to the clock; a jump happens iff UP is buffered and the player is grounded or left the ground less than `COYOTE_DURATION` ago; a jump consumes UP and sets `last_on_ground` to -1; the force is requested every frame |
| Controller.OneJumpPerPress | pyweek36/sprites.py:83-92 | a second update at the same clock without a new press does not jump, grounded or not, once the clock is at least `INPUT_BUFFER_DURATION - 1` |
| Sprites.PlayerSprite.constructor | pyweek36/sprites.py:29-50 | facing right, walk frame 0, odometers 0, idle texture, `last_on_ground` -1 |
| Sprites.PlayerSprite.OnUpdate | pyweek36/sprites.py:65-92 | returns the force and impulse of `ControlStep` and leaves `last_on_ground` and the window's stamps as it says |
| Sprites.PlayerSprite.PymunkMoved | pyweek36/sprites.py:94-125 | the animation fields become `Moved(old fields, dx, dy, on_ground)`, keeping the walk frame a valid index |
| Animation.Moved | pyweek36/sprites.py:94-125 | definition of one movement callback: odometers, velocity estimate, facing, then pose and walk cycle |
| Animation.FacingHysteresis | pyweek36/sprites.py:101-105 | facing changes iff `dx < -DEAD_ZONE` while facing right or `dx > DEAD_ZONE` while facing left, to the direction of the move; `abs(dx) <= DEAD_ZONE` never changes it |
| Animation.PoseSelection | pyweek36/sprites.py:107-125 | airborne and rising beyond the dead zone gives the jump pose, airborne and falling beyond it the fall pose, then `abs(dx) <= DEAD_ZONE` idle, anything else the walk branch |
| Animation.OdometerAndWalkCycle | pyweek36/sprites.py:97-125 | the odometers always add the move; only the walk branch with `abs(x_odometer) > DISTANCE_TO_CHANGE_TEXTURE` resets it to 0 and steps the frame to `(cur + 1) mod len`; other branches keep the frame, a short walk keeps the texture |
| Animation.WalkFrameInRange | pyweek36/sprites.py:122-125 | the walk frame index stays in `[0, len(walk_textures))` |
| Animation.NoTurnWithinDeadZone | pyweek36/sprites.py:101-105 | any run of moves with `abs(dx) <= DEAD_ZONE` never changes the facing direction |
| Animation.WalkFrameAlwaysInRange | pyweek36/sprites.py:122-125 | over any run of moves the walk frame index stays in range |
| Sprites.BulletSprite.RemoveFromSpriteLists | pyweek36/sprites.py:135 | the bullet list becomes `Without(old list, this)`: this bullet is gone, every other entry keeps its multiplicity and its order (`Game.WithoutConcat`) |
| Sprites.BulletSprite.PymunkMoved | pyweek36/sprites.py:131-135 | the bullet leaves the bullet list iff `center_y < -100`; otherwise the list is unchanged |
| Game.Without | pyweek36/sprites.py:135 | the result no longer holds the bullet, keeps every other entry with its multiplicity (the multiset with the bullet's count set to 0), and equals the list when the bullet was not in it |
| Game.WithoutConcat | pyweek36/sprites.py:135 | removal distributes over concatenation, so any entry before another in the list is still before it after removal |
| Game.WithoutIdempotent | pyweek36/main.py:106-108 | removing a bullet twice is removing it once |
| Frame.WallHitHandler | pyweek36/main.py:106-108 | on a bullet/wall contact the bullet leaves the bullet list |

## Left out

- pyweek36/constants.py is not part of this model. Its constants are the fields of `Common.Tuning`, and every property holds for all values that meet the lemma's stated hypotheses.
- Window creation, `on_draw`, `main`, `arcade.run` and the background colour: rendering and event-loop plumbing.
- `load_tilemap`: map file loading and registration with the physics engine. Its result, the tile list, is the parameter of `Game.GameWindow.Setup`. The player it creates is the `Sprites.PlayerSprite` constructor.
- The physics engine: `step`, `apply_force`, `apply_impulse`, `is_on_ground`, the collision-handler registration, and the engine writing the bullet's `center_y`. Its readings are parameters and its requests are results.
- `on_mouse_press`: bullet creation, aiming with `atan2`, and registration with the engine. This is floating-point trigonometry and engine calls.
- `perf_counter`, `random`, `sample` and `choice`: replaced by parameters. All clock readings in one spread pass are taken to be equal, so the clock is frozen for the whole pass. "At most one tile per pass" depends on that: in the program the clock keeps moving, and a delay shorter than the rest of the pass could allow a second conversion.
- `load_texture_pairs`, the class-level `anim_textures` table and the texture objects: filesystem access. Textures are tags and the walk cycle's length is a parameter.
- `set_texture_type`: nothing calls it, and it reads a field that is never initialised.
- Tiles whose hit box does not fill their grid cell: the sprite framework's hit box computation is not part of this model, and every tile is taken to be its full cell.
- Tiles without a `type` property, which make the source raise a `KeyError` in the spread loop: every modelled tile has a kind.
- An empty walk texture list, which makes the source divide by zero in the walk branch: `Sprites.PlayerSprite.constructor` requires at least one walk frame.
- Calling `on_update` before `setup`, which fails in the source on the unset player and schedule: `Frame.OnUpdate` requires the window to be set up.
- Game.GameWindow.SpreadPass: "at most one tile per pass" is stated only under `OneSpreadPerPass`, `RATE*(1-MARGIN) > 0 && RATE*(1+MARGIN) >= 0`, which `Tiles.SpreadDelayPositive` proves is exactly "every delay is positive". Under other constants some draw gives a delay `<= 0` (`Tiles.DelayNotPositiveSomewhere`). The contract then says nothing about the number of conversions, and the program may convert again in the same pass.
