# Lane-racing game simulation, modelled and verified in Dafny

The game is a three-lane text racer. The player's car moves along a track of
40 cells. Each lap, one obstacle (a tree) is drawn at random in each lane. The
player changes lanes, accelerates, brakes and uses a once-per-lap boost. A
collision costs a life and knocks the car back. Finishing a lap scores
`int(100 * speed)` points. The game ends when no life is left, and a restart
keeps only the high score.

The model has four modules:

- `Obstacles` (obstacles.dfy) covers obstacles, the draws that place them and the collision test.
- `Rules` (rules.dfy) holds the game state as a value (`Game`) and every rule as a function of it: the commands, the per-tick advance, the key dispatcher and the restart. It also holds the invariant `Valid` and the lemmas about these rules, including lemmas over any sequence of commands (`Run`).
- `Rendering` (render.dfy) is the picture of the track, stated cell by cell.
- `Session` (session.dfy) holds the class `GameState`. Its fields are the game record's fields, and its methods change them in place, as the game does. Each method is proved to leave exactly the state the matching `Rules` function gives, and to keep `Valid`. `CheckCollision` and `RenderTrack` are the game's loops. They read the state and are proved against the `Obstacles` and `Rendering` definitions.

Representation choices:

- **Half cells.** Speeds and the player's position are counted in half cells (`halfSpeed == 2 * speed`, `halfPosition == 2 * position`). Every speed change in the game is a multiple of 0.5 and the position starts at 0, so this is exact. Under this choice `int(100 * speed)` is `50 * halfSpeed`, and `int(position)` is `halfPosition / 2` truncated toward zero (`Rendering.CellOf`). Obstacle positions are whole cells, because the generator draws integers.
- **Random draws.** Each call of the obstacle generator is given its three draws as a `Rolls` value. `RollsInRange` requires each draw to lie in the inclusive range `[25, track_length - 5]` that `random.randint` draws from.
- **Fixed settings.** `track_length` (40) and `max_speed` (5) are never changed by the game, so they are `const` fields of the class.
- **Object invariant.** Every state-changing method of `GameState` (and the constructor) ensures `Valid()`, and every one but the constructor requires it. The constructor establishes it and every such method keeps it, so it holds for every session object. This demands nothing of callers that the game itself could violate. The two read-only methods, `CheckCollision` and `RenderTrack`, need no precondition.

Two behaviours of the code worth stating:

- **Commands after game over.** Only the per-tick advance checks `game_over` (main.py:115). Lane changes, acceleration, braking and the boost still act after game over.
- **Minimum track length.** The draw range `[25, track_length - 5]` is empty below 30 cells, and `randint` would raise on it (`Obstacles.DrawableIffLongEnough`). So `Valid` requires at least 30.

Facts the proofs bring out:

- **No collision at the finish line.** Obstacles stop five cells before the end of the track, and a hit needs the car within two cells of one. So a collision and a completed lap never happen in the same tick (`Obstacles.CollisionIsBeforeFinish`, `Rules.TickWithCollision`). The collision-before-lap order is therefore never observable.
- **Repeated "r" key.** The restart clears the last key, so pressing "r" again is not suppressed as a repeat: it restarts again (`Rules.KeyDispatch`).

## Model

| member | source | states |
|---|---|---|
| `Obstacles.Generate` | main.py:53-60 | three obstacles with lanes 0, 1, 2 in order; the list is well placed (each position in [25, track_length-5]) exactly when the three draws are in randint's range |
| `Obstacles.EveryPlacementIsDrawable` | main.py:56-60 | every well-placed obstacle list is generated by some in-range draws |
| `Obstacles.DrawableIffLongEnough` | main.py:57-59 | in-range draws exist exactly when track_length >= 30 |
| `Obstacles.OwnLaneDecides` | main.py:101-110 | with one obstacle per lane, a collision happens exactly when the obstacle of the player's own lane is within 2 cells |
| `Obstacles.CollisionIsBeforeFinish` | main.py:107-108 | a collision with a well-placed obstacle happens only before position track_length - 3 |
| `Rules.Initial` | main.py:10-26 | the starting state (position 0, lane 1, speed 2, 3 lives, boost on, no last key, obstacles from the draws) satisfies the invariant exactly when the draws are in range |
| `Rules.LaneChanges` | main.py:63-76 | lane changes stay in [0, 2]; at the edge lane nothing changes, not even speed; a real change moves one lane and lowers speed by 0.5, floored at 1 |
| `Rules.SpeedStaysInBounds` | main.py:63-98 | every command and tick keeps speed in [1, max_speed] |
| `Rules.BoostIsOneShot` | main.py:91-98 | an available boost sets speed to min(speed + 2, max_speed) and clears the boost; an unavailable one changes nothing; boosting twice equals boosting once |
| `Rules.TickFrozenWhenOver` | main.py:115 | a tick of a finished game changes nothing |
| `Rules.TickWithCollision` | main.py:117-138 | the whole new state after a collision: one life less, speed 2, no lap; with the last life lost the game ends at the moved position and high_score becomes max(high_score, score), otherwise the position becomes max(0, position + speed - 10); every other field is kept |
| `Rules.TickWithoutCollision` | main.py:113-138 | the whole new state without a collision: at or past track_length the lap completes (position 0, score + int(100*speed), new obstacles, boost available, every other field kept); otherwise only the position advances by the speed |
| `Rules.TickKeepsLaneAndKey` | main.py:113-138 | a tick never changes the lane or the last key processed |
| `Rules.HeldKeyActsOnce` | main.py:33-36 | a key other than "r" seen again after the key-then-tick pass (main.py:212, 262) is suppressed as a repeat |
| `Rules.TickStaysOnTrack` | main.py:113-138 | after any tick 0 <= position < track_length |
| `Rules.ResetRestoresStart` | main.py:172-182 | a restart gives the starting state with the old high score kept |
| `Rules.KeyFiltering` | main.py:33-36 | no key, an empty key or a repeat of the last key changes nothing; an unknown new key is only recorded as last key |
| `Rules.KeyDispatch` | main.py:35-50 | each new control key runs its command after being recorded; "r" restarts and forgets the key, so a second "r" restarts again |
| `Rules.StepKeepsConfiguration` | main.py:14-20 | no command or tick changes track_length or max_speed |
| `Rules.StepKeepsHighScore` | main.py:125-126 | no command or tick lowers the high score |
| `Rules.StepKeepsValid` | main.py:63-182 | every command and tick keeps the invariant: lane, speed, position, lives in [0,3] with game over exactly at 0, three well-placed obstacles, high score >= score once over |
| `Rules.GameEndsOnlyByLastLife` | main.py:120-124 | a game ends only on a tick that loses the last life |
| `Rules.BoostReturnsOnlyByLapOrRestart` | main.py:91-98 | a used boost comes back only from the reset button, a new "r" key, or a tick that completes a lap (position 0, new obstacles) |
| `Rules.OnlyResetRestarts` | main.py:49-50 | a finished game only runs again after the reset button or a new "r" key |
| `Rules.RunKeepsValid` | main.py:185-271 | after any sequence of key events, button presses and ticks the invariant holds, with track length and max speed unchanged |
| `Rules.RunKeepsHighScore` | main.py:113-182 | over any sequence of commands, restarts included, the high score never decreases |
| `Rules.LaneStaysInRange` | main.py:63-76 | after any number of move-up presses, or of move-down presses, the lane is in [0, 2] |
| `Rules.LapScenario` | main.py:132-138 | track 40, position 38, speed 3, no hit: the lap completes with position 0, 300 points, new obstacles and the boost back |
| `Rules.CollisionScenario` | main.py:117-130 | lane 1, obstacle at 10, position 9, speed 2: hit at 11, two lives left, speed 2, position 1 |
| `Rendering.CellOf` | main.py:144 | the cell of a position is its truncation toward zero: 2c <= halfPos < 2c + 2 for nonnegative positions |
| `Rendering.RenderShape` | main.py:147-169 | four lines: lanes numbered 1 to 3, each with track_length cells, then the finish row of track_length |
| `Rendering.CarOnlyAtPlayer` | main.py:158-159 | a cell shows the car exactly when it is the player's lane and cell |
| `Rendering.TreesAndRoad` | main.py:148-159 | a cell shows a tree exactly when an obstacle of that lane is there and the car is not; road exactly when neither is |
| `Rendering.ValidGameIsFullyDrawn` | main.py:151-159 | in every reachable state the car and every obstacle are drawn in bounds, an obstacle as a tree unless the car covers it |
| `Rules.MoveUp` | main.py:63-68 | reference definition of move_up that `Session.GameState.MoveUp` is proved against and the lane lemmas are about |
| `Rules.MoveDown` | main.py:71-76 | reference definition of move_down that `Session.GameState.MoveDown` is proved against and the lane lemmas are about |
| `Rules.Accelerate` | main.py:79-82 | reference definition of accelerate that `Session.GameState.Accelerate` is proved against and the speed lemmas are about |
| `Rules.Brake` | main.py:85-88 | reference definition of brake that `Session.GameState.Brake` is proved against and the speed lemmas are about |
| `Rules.UseBoost` | main.py:91-98 | reference definition of use_boost that `Session.GameState.UseBoost` is proved against and the boost lemmas are about |
| `Rules.Reset` | main.py:172-182 | reference definition of reset_game that `Session.GameState.Reset` is proved against and `Rules.ResetRestoresStart` is about |
| `Rules.Crash` | main.py:120-130 | reference definition of the collision response inside move_player, used by `Rules.Tick` |
| `Rules.CompleteLap` | main.py:132-138 | reference definition of the lap check inside move_player, used by `Rules.Tick` |
| `Rules.Tick` | main.py:113-138 | reference definition of move_player that `Session.GameState.Tick` is proved against and the tick lemmas are about |
| `Rules.Dispatch` | main.py:39-50 | reference definition of the key-to-command chain, used by `Rules.HandleKey` |
| `Rules.HandleKey` | main.py:29-50 | reference definition of handle_input that `Session.GameState.HandleInput` is proved against and the key lemmas are about |
| `Obstacles.Hits` | main.py:107-108 | reference definition of one obstacle hitting the player: same lane, less than 2 cells apart |
| `Obstacles.Collides` | main.py:101-110 | reference definition of check_collision that `Session.GameState.CheckCollision` is proved against |
| `Rendering.Cell` | main.py:148-159 | reference definition of one rendered cell: car over tree over road |
| `Rendering.Render` | main.py:141-169 | reference definition of render_track that `Session.GameState.RenderTrack` is proved against and the rendering lemmas are about |
| `Session.GameState.constructor` | main.py:7-26 | a new session is in the starting state and valid |
| `Session.GameState.MoveUp` | main.py:63-68 | updates the state in place as Rules.MoveUp and keeps the invariant |
| `Session.GameState.MoveDown` | main.py:71-76 | updates the state in place as Rules.MoveDown and keeps the invariant |
| `Session.GameState.Accelerate` | main.py:79-82 | speed + 0.5 only below max_speed, in place, keeping the invariant |
| `Session.GameState.Brake` | main.py:85-88 | speed - 0.5 only above 1, in place, keeping the invariant |
| `Session.GameState.UseBoost` | main.py:91-98 | updates the state in place as Rules.UseBoost and keeps the invariant |
| `Session.GameState.Reset` | main.py:172-182 | updates the state in place as Rules.Reset and keeps the invariant |
| `Session.GameState.CheckCollision` | main.py:101-110 | the scan with early return answers true exactly when some obstacle in the player's lane is less than 2 cells away |
| `Session.GameState.Tick` | main.py:113-138 | the in-place tick leaves exactly the state Rules.Tick gives and keeps the invariant |
| `Session.GameState.HandleInput` | main.py:29-50 | the key dispatcher leaves exactly the state Rules.HandleKey gives and keeps the invariant |
| `Session.GameState.RenderTrack` | main.py:141-169 | the loops over lanes and obstacles, overwriting cells of a fresh row, produce exactly Rendering.Render of the state, and change nothing |

## Left out

- The Streamlit page, title, instructions, status metrics and code block (main.py:185-229) are presentation and are not modelled. So are the button wiring (main.py:231-259): each button press is a `Rules.Command` taken by `Rules.Run` in any order, and the `Session` methods of the same names.
- The `keyup` widget that delivers the key (main.py:31) is not modelled. The key is a parameter `Option<string>`.
- The boost button's `disabled` flag (main.py:255) is not modelled. A press while no boost is available changes nothing anyway (`Rules.BoostIsOneShot`).
- The "play again" button after game over (main.py:265-267) is not modelled separately. It runs the same restart.
- The `time.sleep(0.1)` and `st.rerun()` loop (main.py:269-271) is not modelled. Its fixed order (key, then buttons, then tick) is one command sequence among those `Rules.RunKeepsValid` covers.
- The "create only if absent" check on the session store (main.py:9) is not modelled. The constructor builds the starting state.
- `random.randint` is replaced by the `Rolls` parameter, constrained to its range.
- Python floats are replaced by exact half-cell integers.
- The one-decimal display of the speed is presentation and is not modelled.
- Glyph encoding is not modelled: the emoji, the box-drawing characters, their display widths, and the join of the four lines into one string with newlines. Cells are the abstract `Rendering.Glyph` values, and the lane label and borders are the fields of `Rendering.Line`.
