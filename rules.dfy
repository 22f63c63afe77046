/** The rules of the lane-racing game as functions on a game-state value.

    Speeds and the player's position are counted in HALF cells: every speed
    change in the game is a multiple of one half, and the position starts at
    zero, so `halfSpeed == 2 * speed` and `halfPosition == 2 * position`
    hold exactly. Each function here is the rule one command or the per-tick
    advance applies; the class in module Session carries out the same rules
    in place and is proved to agree with them. */
module Rules {
  import opened Obstacles

  datatype Option<T> = None | Some(value: T)

  /** The whole state of one game session. */
  datatype Game = Game(
    halfPosition: int,           // progress along the track, in half cells
    lane: int,                   // 0 top, 1 middle, 2 bottom
    trackLength: int,            // cells in a lap
    gameOver: bool,
    obstacles: seq<Obstacle>,
    score: int,
    highScore: int,
    halfSpeed: int,              // half cells per tick
    halfMaxSpeed: int,
    lives: int,
    boostAvailable: bool,
    lastKey: Option<string>)     // last keyboard key processed

  const TRACK_LENGTH := 40
  /** Maximum speed 5, in half cells. */
  const HALF_MAX_SPEED := 10
  /** Starting speed 2 (also the speed after a collision), in half cells. */
  const HALF_START_SPEED := 4
  /** Speed never drops below 1, in half cells. */
  const HALF_MIN_SPEED := 2
  /** The boost adds 2 to the speed, in half cells. */
  const HALF_BOOST := 4
  const START_LIVES := 3
  const START_LANE := 1
  /** A survived collision throws the player back 10 cells, in half cells. */
  const HALF_KNOCK_BACK := 20
  /** A lap scores `int(100 * speed)`, which is 50 per half cell of speed. */
  const POINTS_PER_HALF_SPEED := 50

  function Max(a: int, b: int): (m: int) { if a >= b then a else b }
  function Min(a: int, b: int): (m: int) { if a <= b then a else b }

  /** The state a session starts in, with the first lap's obstacles. */
  function Initial(r: Rolls): (g: Game)
    ensures Valid(g) <==> RollsInRange(r, TRACK_LENGTH)
  {
    Game(0, START_LANE, TRACK_LENGTH, false, Generate(TRACK_LENGTH, r), 0, 0,
         HALF_START_SPEED, HALF_MAX_SPEED, START_LIVES, true, None)
  }

  /** The invariant every reachable state keeps. */
  predicate Valid(g: Game)
  {
    && g.trackLength >= FIRST_CELL + FINISH_GAP
    && HALF_START_SPEED <= g.halfMaxSpeed
    && 0 <= g.halfPosition < 2 * g.trackLength
    && 0 <= g.lane <= 2
    && HALF_MIN_SPEED <= g.halfSpeed <= g.halfMaxSpeed
    && 0 <= g.lives <= START_LIVES
    && (g.gameOver <==> g.lives == 0)
    && 0 <= g.score && 0 <= g.highScore
    && (g.gameOver ==> g.score <= g.highScore)
    && WellPlaced(g.obstacles, g.trackLength)
  }

  // ---------------------------------------------------------------- commands

  /** A lane change costs half a unit of speed, never going below 1. */
  function LaneChangeSpeed(halfSpeed: int): (s: int)
  {
    Max(HALF_MIN_SPEED, halfSpeed - 1)
  }

  function MoveUp(g: Game): (next: Game)
  {
    if g.lane > 0 then g.(lane := g.lane - 1, halfSpeed := LaneChangeSpeed(g.halfSpeed)) else g
  }

  function MoveDown(g: Game): (next: Game)
  {
    if g.lane < 2 then g.(lane := g.lane + 1, halfSpeed := LaneChangeSpeed(g.halfSpeed)) else g
  }

  function Accelerate(g: Game): (next: Game)
  {
    if g.halfSpeed < g.halfMaxSpeed then g.(halfSpeed := g.halfSpeed + 1) else g
  }

  function Brake(g: Game): (next: Game)
  {
    if g.halfSpeed > HALF_MIN_SPEED then g.(halfSpeed := g.halfSpeed - 1) else g
  }

  function UseBoost(g: Game): (next: Game)
  {
    if g.boostAvailable then g.(halfSpeed := Min(g.halfSpeed + HALF_BOOST, g.halfMaxSpeed), boostAvailable := false)
    else g
  }

  /** Restart: every field back to its starting value except the high score,
      the track length and the maximum speed; a fresh set of obstacles. */
  function Reset(g: Game, r: Rolls): (restarted: Game)
  {
    g.(halfPosition := 0, lane := START_LANE, gameOver := false, obstacles := Generate(g.trackLength, r),
       score := 0, halfSpeed := HALF_START_SPEED, lives := START_LIVES, boostAvailable := true, lastKey := None)
  }

  // ------------------------------------------------------- per-tick advance

  /** Whether the player, where it stands now, hits an obstacle. */
  predicate PlayerCollides(g: Game)
  {
    Collides(g.obstacles, g.lane, g.halfPosition)
  }

  /** What a collision does: one life less and the starting speed; then
      either the game ends (recording the high score) or the player is
      thrown back, not past the start. */
  function Crash(g: Game): (crashed: Game)
  {
    var lives := g.lives - 1;
    if lives <= 0 then
      g.(lives := lives, halfSpeed := HALF_START_SPEED, gameOver := true,
         highScore := if g.score > g.highScore then g.score else g.highScore)
    else
      g.(lives := lives, halfSpeed := HALF_START_SPEED, halfPosition := Max(0, g.halfPosition - HALF_KNOCK_BACK))
  }

  /** Reaching the end of the track completes a lap: back to the start, the
      lap's points, new obstacles, and the boost restored. */
  function CompleteLap(g: Game, r: Rolls): (lapped: Game)
  {
    if g.halfPosition >= 2 * g.trackLength then
      g.(halfPosition := 0, score := g.score + POINTS_PER_HALF_SPEED * g.halfSpeed,
         obstacles := Generate(g.trackLength, r), boostAvailable := true)
    else g
  }

  /** One tick: nothing once the game is over; otherwise move by the speed,
      resolve a collision, then check for a completed lap. */
  function Tick(g: Game, r: Rolls): (t: Game)
  {
    if g.gameOver then g
    else
      var moved := g.(halfPosition := g.halfPosition + g.halfSpeed);
      var afterHit := if PlayerCollides(moved) then Crash(moved) else moved;
      CompleteLap(afterHit, r)
  }

  // ---------------------------------------------------------- keyboard input

  /** The command a keyboard key stands for; any other key does nothing. */
  function Dispatch(g: Game, key: string, r: Rolls): (next: Game)
  {
    if key == "ArrowUp" then MoveUp(g)
    else if key == "ArrowDown" then MoveDown(g)
    else if key == "ArrowRight" then Accelerate(g)
    else if key == "ArrowLeft" then Brake(g)
    else if key == " " then UseBoost(g)
    else if key == "r" then Reset(g, r)
    else g
  }

  /** A key event: no key (or an empty one) and a repeat of the last key
      processed are ignored; any other key is recorded as the last key and
      then dispatched. */
  function HandleKey(g: Game, key: Option<string>, r: Rolls): (next: Game)
  {
    if key.None? || key.value == "" || key == g.lastKey then g
    else Dispatch(g.(lastKey := key), key.value, r)
  }

  // ------------------------------------------------------ command sequences

  /** Anything the outside world can do to a session: a key event, one of
      the buttons, or a tick. Each carries the draws it would use if it
      generated obstacles. */
  datatype Command =
    | Key(key: Option<string>, keyRolls: Rolls)
    | UpButton
    | DownButton
    | AccelerateButton
    | BrakeButton
    | BoostButton
    | ResetButton(resetRolls: Rolls)
    | Advance(lapRolls: Rolls)

  /** The draws a command carries are in the generator's range. */
  predicate DrawsInRange(c: Command, trackLength: int)
  {
    match c
    case Key(_, r) => RollsInRange(r, trackLength)
    case ResetButton(r) => RollsInRange(r, trackLength)
    case Advance(r) => RollsInRange(r, trackLength)
    case _ => true
  }

  predicate AllDrawsInRange(cs: seq<Command>, trackLength: int)
  {
    forall i :: 0 <= i < |cs| ==> DrawsInRange(cs[i], trackLength)
  }

  function Step(g: Game, c: Command): (next: Game)
  {
    match c
    case Key(k, r) => HandleKey(g, k, r)
    case UpButton => MoveUp(g)
    case DownButton => MoveDown(g)
    case AccelerateButton => Accelerate(g)
    case BrakeButton => Brake(g)
    case BoostButton => UseBoost(g)
    case ResetButton(r) => Reset(g, r)
    case Advance(r) => Tick(g, r)
  }

  /** The state after the commands, in order. */
  function Run(g: Game, cs: seq<Command>): (final: Game)
    decreases |cs|
  {
    if cs == [] then g else Run(Step(g, cs[0]), cs[1..])
  }

  // ------------------------------------------------------------------ lemmas

  /** Lane changes stay within the three lanes; at the edge lane nothing
      changes, not even the speed; a real change costs half a unit of speed,
      floored at 1, and touches nothing else. */
  lemma LaneChanges(g: Game)
    requires 0 <= g.lane <= 2
    ensures 0 <= MoveUp(g).lane <= 2 && 0 <= MoveDown(g).lane <= 2
    ensures g.lane == 0 ==> MoveUp(g) == g
    ensures g.lane == 2 ==> MoveDown(g) == g
    ensures g.lane > 0 ==> MoveUp(g) == g.(lane := g.lane - 1, halfSpeed := Max(HALF_MIN_SPEED, g.halfSpeed - 1))
    ensures g.lane < 2 ==> MoveDown(g) == g.(lane := g.lane + 1, halfSpeed := Max(HALF_MIN_SPEED, g.halfSpeed - 1))
  {
  }

  /** Every command keeps the speed within [1, maximum]. */
  lemma SpeedStaysInBounds(g: Game, c: Command)
    requires HALF_START_SPEED <= g.halfMaxSpeed
    requires HALF_MIN_SPEED <= g.halfSpeed <= g.halfMaxSpeed
    ensures HALF_MIN_SPEED <= Step(g, c).halfSpeed <= Step(g, c).halfMaxSpeed
  {
  }

  /** The boost is one-shot: when available it raises the speed by 2, capped
      at the maximum, and is used up, so a second boost changes nothing. */
  lemma BoostIsOneShot(g: Game)
    ensures g.boostAvailable ==> UseBoost(g) == g.(halfSpeed := Min(g.halfSpeed + HALF_BOOST, g.halfMaxSpeed), boostAvailable := false)
    ensures !g.boostAvailable ==> UseBoost(g) == g
    ensures UseBoost(UseBoost(g)) == UseBoost(g)
  {
  }

  /** Once the game is over a tick changes nothing. */
  lemma TickFrozenWhenOver(g: Game, r: Rolls)
    requires g.gameOver
    ensures Tick(g, r) == g
  {
  }

  /** A tick with a collision, as a whole new state: one life less and speed
      back to 2; with the last life lost the game ends where the car stands
      and records the high score, otherwise the car is thrown back ten cells
      (not past the start). Nothing else changes: a collision never also
      completes the lap. */
  lemma TickWithCollision(g: Game, r: Rolls)
    requires Valid(g) && !g.gameOver
    requires Collides(g.obstacles, g.lane, g.halfPosition + g.halfSpeed)
    ensures g.lives == 1 ==>
      Tick(g, r) == g.(lives := 0, halfSpeed := HALF_START_SPEED, gameOver := true,
                       highScore := Max(g.highScore, g.score), halfPosition := g.halfPosition + g.halfSpeed)
    ensures g.lives > 1 ==>
      Tick(g, r) == g.(lives := g.lives - 1, halfSpeed := HALF_START_SPEED,
                       halfPosition := Max(0, g.halfPosition + g.halfSpeed - HALF_KNOCK_BACK))
  {
    CollisionIsBeforeFinish(g.obstacles, g.trackLength, g.lane, g.halfPosition + g.halfSpeed);
  }

  /** A tick without a collision, as a whole new state: the car moves by
      its speed; reaching the end of the track completes the lap instead:
      position 0, `int(100 * speed)` points, new obstacles and the boost back. */
  lemma TickWithoutCollision(g: Game, r: Rolls)
    requires !g.gameOver
    requires !Collides(g.obstacles, g.lane, g.halfPosition + g.halfSpeed)
    ensures g.halfPosition + g.halfSpeed >= 2 * g.trackLength ==>
      Tick(g, r) == g.(halfPosition := 0, score := g.score + POINTS_PER_HALF_SPEED * g.halfSpeed,
                       obstacles := Generate(g.trackLength, r), boostAvailable := true)
    ensures g.halfPosition + g.halfSpeed < 2 * g.trackLength ==>
      Tick(g, r) == g.(halfPosition := g.halfPosition + g.halfSpeed)
  {
  }

  /** A tick keeps the lane and the last key processed, so a key held across
      a tick is still suppressed as a repeat on the next one. */
  lemma TickKeepsLaneAndKey(g: Game, r: Rolls)
    ensures Tick(g, r).lane == g.lane && Tick(g, r).lastKey == g.lastKey
  {
  }

  /** A key held down over the game's key-then-tick pass is processed only
      the first time ("r" excepted, since the restart forgets the key). */
  lemma HeldKeyActsOnce(g: Game, k: string, r: Rolls, r1: Rolls, r2: Rolls)
    requires k != "" && k != "r"
    ensures var afterPass := Tick(HandleKey(g, Some(k), r), r1);
            HandleKey(afterPass, Some(k), r2) == afterPass
  {
    TickKeepsLaneAndKey(HandleKey(g, Some(k), r), r1);
  }

  /** After any tick the player is on the track: `0 <= position < length`. */
  lemma TickStaysOnTrack(g: Game, r: Rolls)
    requires Valid(g)
    ensures 0 <= Tick(g, r).halfPosition < 2 * g.trackLength
  {
    var moved := g.(halfPosition := g.halfPosition + g.halfSpeed);
    if !g.gameOver && PlayerCollides(moved) {
      CollisionIsBeforeFinish(moved.obstacles, moved.trackLength, moved.lane, moved.halfPosition);
    }
  }

  /** Reset gives the starting state again, keeping only the high score. */
  lemma ResetRestoresStart(g: Game, r: Rolls)
    requires g.trackLength == TRACK_LENGTH && g.halfMaxSpeed == HALF_MAX_SPEED
    ensures Reset(g, r) == Initial(r).(highScore := g.highScore)
  {
  }

  /** No key, an empty key and a repeat of the last key leave the state as
      it is; an unknown new key is only recorded. */
  lemma KeyFiltering(g: Game, key: Option<string>, r: Rolls)
    ensures (key.None? || key == Some("") || key == g.lastKey) ==> HandleKey(g, key, r) == g
    ensures (key.Some? && key.value !in {"", "ArrowUp", "ArrowDown", "ArrowRight", "ArrowLeft", " ", "r"}
             && key != g.lastKey) ==> HandleKey(g, key, r) == g.(lastKey := key)
  {
  }

  /** A new arrow key runs its command with the key recorded; a new "r"
      restarts, which forgets the last key, so a second "r" is not
      suppressed but restarts again. */
  lemma KeyDispatch(g: Game, r: Rolls, r2: Rolls)
    ensures g.lastKey != Some("ArrowUp") ==> HandleKey(g, Some("ArrowUp"), r) == MoveUp(g.(lastKey := Some("ArrowUp")))
    ensures g.lastKey != Some("ArrowDown") ==> HandleKey(g, Some("ArrowDown"), r) == MoveDown(g.(lastKey := Some("ArrowDown")))
    ensures g.lastKey != Some("ArrowRight") ==> HandleKey(g, Some("ArrowRight"), r) == Accelerate(g.(lastKey := Some("ArrowRight")))
    ensures g.lastKey != Some("ArrowLeft") ==> HandleKey(g, Some("ArrowLeft"), r) == Brake(g.(lastKey := Some("ArrowLeft")))
    ensures g.lastKey != Some(" ") ==> HandleKey(g, Some(" "), r) == UseBoost(g.(lastKey := Some(" ")))
    ensures g.lastKey != Some("r") ==> HandleKey(g, Some("r"), r) == Reset(g, r)
    ensures HandleKey(Reset(g, r), Some("r"), r2) == Reset(g, r2)
  {
  }

  /** No command changes the track length or the maximum speed. */
  lemma StepKeepsConfiguration(g: Game, c: Command)
    ensures Step(g, c).trackLength == g.trackLength && Step(g, c).halfMaxSpeed == g.halfMaxSpeed
  {
  }

  /** The high score never goes down. */
  lemma StepKeepsHighScore(g: Game, c: Command)
    ensures Step(g, c).highScore >= g.highScore
  {
  }

  /** Every command and every tick keeps the invariant. */
  lemma StepKeepsValid(g: Game, c: Command)
    requires Valid(g)
    requires DrawsInRange(c, g.trackLength)
    ensures Valid(Step(g, c))
  {
    if c.Advance? {
      TickStaysOnTrack(g, c.lapRolls);
      var moved := g.(halfPosition := g.halfPosition + g.halfSpeed);
      if !g.gameOver && PlayerCollides(moved) {
        CollisionIsBeforeFinish(moved.obstacles, moved.trackLength, moved.lane, moved.halfPosition);
      }
    }
  }

  /** The game can only end on a tick, by a collision with one life left. */
  lemma GameEndsOnlyByLastLife(g: Game, c: Command)
    requires Valid(g) && !g.gameOver
    requires Step(g, c).gameOver
    ensures c.Advance? && g.lives == 1 && Step(g, c).lives == 0
  {
  }

  /** A finished game only starts again through a restart: the reset button
      or a new "r" key. */
  lemma OnlyResetRestarts(g: Game, c: Command)
    requires g.gameOver
    requires !Step(g, c).gameOver
    ensures c.ResetButton? || (c.Key? && c.key == Some("r") && g.lastKey != Some("r"))
  {
  }

  /** A used boost only comes back with a completed lap or a restart (the
      reset button or a new "r" key). */
  lemma BoostReturnsOnlyByLapOrRestart(g: Game, c: Command)
    requires !g.boostAvailable
    requires Step(g, c).boostAvailable
    ensures || c.ResetButton?
            || (c.Key? && c.key == Some("r") && g.lastKey != Some("r"))
            || (c.Advance? && !g.gameOver && Step(g, c).halfPosition == 0
                && Step(g, c).obstacles == Generate(g.trackLength, c.lapRolls))
  {
  }

  /** The invariant holds after any sequence of commands, so every reachable
      state has its speed in [1, maximum], its lane in [0, 2], its position
      on the track, three well-placed obstacles and a high score at least the
      final score of a finished game. */
  lemma {:induction false} RunKeepsValid(g: Game, cs: seq<Command>)
    requires Valid(g)
    requires AllDrawsInRange(cs, g.trackLength)
    ensures Valid(Run(g, cs))
    ensures Run(g, cs).trackLength == g.trackLength && Run(g, cs).halfMaxSpeed == g.halfMaxSpeed
    decreases |cs|
  {
    if cs != [] {
      StepKeepsValid(g, cs[0]);
      StepKeepsConfiguration(g, cs[0]);
      var g' := Step(g, cs[0]);
      assert AllDrawsInRange(cs[1..], g'.trackLength) by {
        forall i | 0 <= i < |cs[1..]| ensures DrawsInRange(cs[1..][i], g'.trackLength) {
          assert cs[1..][i] == cs[i + 1];
        }
      }
      RunKeepsValid(g', cs[1..]);
    }
  }

  /** Over any sequence of commands, resets included, the high score never
      goes down. */
  lemma {:induction false} RunKeepsHighScore(g: Game, cs: seq<Command>)
    ensures Run(g, cs).highScore >= g.highScore
    decreases |cs|
  {
    if cs != [] {
      StepKeepsHighScore(g, cs[0]);
      RunKeepsHighScore(Step(g, cs[0]), cs[1..]);
    }
  }

  /** Over any sequence of move-up presses the lane never drops below 0,
      and over any sequence of move-down presses it never exceeds 2. */
  lemma {:induction false} LaneStaysInRange(g: Game, n: nat)
    requires 0 <= g.lane <= 2
    ensures 0 <= Run(g, seq(n, _ => UpButton)).lane <= 2
    ensures 0 <= Run(g, seq(n, _ => DownButton)).lane <= 2
    decreases n
  {
    if n > 0 {
      assert seq(n, _ => UpButton)[1..] == seq(n - 1, _ => UpButton);
      assert seq(n, _ => DownButton)[1..] == seq(n - 1, _ => DownButton);
      LaneStaysInRange(MoveUp(g), n - 1);
      LaneStaysInRange(MoveDown(g), n - 1);
    }
  }

  // --------------------------------------------------------------- scenarios

  /** Track of 40, player at 38 with speed 3 and no obstacle near: the tick
      takes it to 41, past the end, so the lap completes with 300 points. */
  lemma LapScenario(r: Rolls)
    requires RollsInRange(r, TRACK_LENGTH)
    ensures var g := Initial(r).(halfPosition := 76, halfSpeed := 6, lane := 0,
                                 obstacles := [Obstacle(0, 25), Obstacle(1, 25), Obstacle(2, 25)]);
            var t := Tick(g, r);
            t.halfPosition == 0 && t.score == 300 && t.obstacles == Generate(TRACK_LENGTH, r) && t.boostAvailable
  {
    var g := Initial(r).(halfPosition := 76, halfSpeed := 6, lane := 0,
                         obstacles := [Obstacle(0, 25), Obstacle(1, 25), Obstacle(2, 25)]);
    assert !PlayerCollides(g.(halfPosition := 82));
  }

  /** Middle lane, obstacle at 10, player at 9 with speed 2: the tick takes
      it to 11, one cell from the obstacle, a collision; with lives left the
      player is thrown back to max(0, 1) = 1. */
  lemma CollisionScenario(r: Rolls)
    requires RollsInRange(r, TRACK_LENGTH)
    ensures var g := Initial(r).(halfPosition := 18, obstacles := [Obstacle(0, 30), Obstacle(1, 10), Obstacle(2, 30)]);
            var t := Tick(g, r);
            t.lives == 2 && t.halfSpeed == HALF_START_SPEED && t.halfPosition == 2 && !t.gameOver
  {
    var g := Initial(r).(halfPosition := 18, obstacles := [Obstacle(0, 30), Obstacle(1, 10), Obstacle(2, 30)]);
    assert Hits(g.obstacles[1], 1, 22);
  }
}
