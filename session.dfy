/** One game session: the mutable game state and the commands that change it
    in place. Every method is proved to leave the state the corresponding
    rule of module Rules gives, and to keep the invariant Rules.Valid. */
module Session {
  import opened Obstacles
  import opened Rules
  import Rendering

  class GameState {
    var halfPosition: int
    var lane: int
    const trackLength: int
    var gameOver: bool
    var obstacles: seq<Obstacle>
    var score: int
    var highScore: int
    var halfSpeed: int
    const halfMaxSpeed: int
    var lives: int
    var boostAvailable: bool
    var lastKey: Option<string>

    /** The session's state as a value. */
    ghost function Model(): Game
      reads this
    {
      Game(halfPosition, lane, trackLength, gameOver, obstacles, score, highScore,
           halfSpeed, halfMaxSpeed, lives, boostAvailable, lastKey)
    }

    ghost predicate Valid()
      reads this
    {
      Rules.Valid(Model())
    }

    /** A new session with its first obstacles drawn by `r`. */
    constructor (r: Rolls)
      requires RollsInRange(r, TRACK_LENGTH)
      ensures Valid() && Model() == Initial(r)
    {
      halfPosition := 0;
      lane := START_LANE;
      trackLength := TRACK_LENGTH;
      gameOver := false;
      score := 0;
      highScore := 0;
      halfSpeed := HALF_START_SPEED;
      halfMaxSpeed := HALF_MAX_SPEED;
      lives := START_LIVES;
      boostAvailable := true;
      lastKey := None;
      new;
      obstacles := Generate(trackLength, r);
    }

    method MoveUp()
      requires Valid()
      modifies this
      ensures Valid() && Model() == Rules.MoveUp(old(Model()))
    {
      if lane > 0 {
        lane := lane - 1;
        halfSpeed := Max(HALF_MIN_SPEED, halfSpeed - 1);
      }
    }

    method MoveDown()
      requires Valid()
      modifies this
      ensures Valid() && Model() == Rules.MoveDown(old(Model()))
    {
      if lane < 2 {
        lane := lane + 1;
        halfSpeed := Max(HALF_MIN_SPEED, halfSpeed - 1);
      }
    }

    method Accelerate()
      requires Valid()
      modifies this
      ensures Valid() && Model() == Rules.Accelerate(old(Model()))
    {
      if halfSpeed < halfMaxSpeed {
        halfSpeed := halfSpeed + 1;
      }
    }

    method Brake()
      requires Valid()
      modifies this
      ensures Valid() && Model() == Rules.Brake(old(Model()))
    {
      if halfSpeed > HALF_MIN_SPEED {
        halfSpeed := halfSpeed - 1;
      }
    }

    method UseBoost()
      requires Valid()
      modifies this
      ensures Valid() && Model() == Rules.UseBoost(old(Model()))
    {
      if boostAvailable {
        halfSpeed := Min(halfSpeed + HALF_BOOST, halfMaxSpeed);
        boostAvailable := false;
      }
    }

    method Reset(r: Rolls)
      requires Valid() && RollsInRange(r, trackLength)
      modifies this
      ensures Valid() && Model() == Rules.Reset(old(Model()), r)
    {
      halfPosition := 0;
      lane := START_LANE;
      gameOver := false;
      obstacles := Generate(trackLength, r);
      score := 0;
      halfSpeed := HALF_START_SPEED;
      lives := START_LIVES;
      boostAvailable := true;
      lastKey := None;
    }

    /** Whether the player, where it stands now, hits an obstacle: scans the
        obstacles and stops at the first hit. */
    method CheckCollision() returns (hit: bool)
      ensures hit <==> Collides(obstacles, lane, halfPosition)
    {
      var k := 0;
      while k < |obstacles|
        invariant 0 <= k <= |obstacles|
        invariant forall i :: 0 <= i < k ==> !Hits(obstacles[i], lane, halfPosition)
      {
        var o := obstacles[k];
        if o.lane == lane && -HIT_HALF_CELLS < halfPosition - 2 * o.position < HIT_HALF_CELLS {
          return true;
        }
        k := k + 1;
      }
      return false;
    }

    /** One tick of the game: move, resolve a collision, complete a lap. */
    method Tick(r: Rolls)
      requires Valid() && RollsInRange(r, trackLength)
      modifies this
      ensures Valid() && Model() == Rules.Tick(old(Model()), r)
    {
      if !gameOver {
        halfPosition := halfPosition + halfSpeed;
        var hit := CheckCollision();
        if hit {
          lives := lives - 1;
          halfSpeed := HALF_START_SPEED;
          if lives <= 0 {
            gameOver := true;
            if score > highScore {
              highScore := score;
            }
          } else {
            halfPosition := Max(0, halfPosition - HALF_KNOCK_BACK);
          }
        }
        if halfPosition >= 2 * trackLength {
          halfPosition := 0;
          score := score + POINTS_PER_HALF_SPEED * halfSpeed;
          obstacles := Generate(trackLength, r);
          boostAvailable := true;
        }
      }
      StepKeepsValid(old(Model()), Advance(r));
    }

    /** A keyboard event: ignored when there is no key or it repeats the last
        key processed; otherwise the key is recorded and its command run. */
    method HandleInput(key: Option<string>, r: Rolls)
      requires Valid() && RollsInRange(r, trackLength)
      modifies this
      ensures Valid() && Model() == HandleKey(old(Model()), key, r)
    {
      if key.Some? && key.value != "" && key != lastKey {
        lastKey := key;
        var k := key.value;
        if k == "ArrowUp" {
          MoveUp();
        } else if k == "ArrowDown" {
          MoveDown();
        } else if k == "ArrowRight" {
          Accelerate();
        } else if k == "ArrowLeft" {
          Brake();
        } else if k == " " {
          UseBoost();
        } else if k == "r" {
          Reset(r);
        }
      }
    }

    /** The picture of the track; reads the state and changes nothing. */
    method RenderTrack() returns (lines: seq<Rendering.Line>)
      ensures lines == Rendering.Render(Model())
    {
      var playerCell := Rendering.CellOf(halfPosition);
      var width := if trackLength > 0 then trackLength else 0;
      lines := [];
      for l := 0 to 3
        invariant lines == Rendering.LaneRows(Model())[..l]
      {
        var track := new Rendering.Glyph[width](_ => Rendering.Road);
        for k := 0 to |obstacles|
          invariant forall j :: 0 <= j < width ==>
            track[j] == if Rendering.ObstacleAt(obstacles[..k], l, j) then Rendering.Tree else Rendering.Road
        {
          Rendering.ObstacleAtExtend(obstacles, k, l);
          if obstacles[k].lane == l {
            var pos := obstacles[k].position;
            if 0 <= pos < track.Length {
              track[pos] := Rendering.Tree;
            }
          }
        }
        if l == lane && 0 <= playerCell < track.Length {
          track[playerCell] := Rendering.Car;
        }
        assert obstacles[..|obstacles|] == obstacles;
        assert track[..] == Rendering.LaneCells(Model(), l);
        lines := lines + [Rendering.LaneRow(l + 1, track[..])];
      }
      lines := lines + [Rendering.FinishRow(width)];
    }
  }
}
