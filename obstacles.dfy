/** Obstacles of the lane-racing game: how one lap's obstacles are drawn and
    when the player runs into one.

    Obstacle positions are whole track cells (the generator draws integers).
    The player's position is kept in half cells (see module Rules), so the
    collision test compares distances in half cells. */
module Obstacles {

  /** One obstacle: the lane it blocks (0 is the top lane) and its cell. */
  datatype Obstacle = Obstacle(lane: int, position: int)

  /** The three values the random generator draws for one lap, one per lane
      (top, middle, bottom). */
  datatype Rolls = Rolls(top: int, middle: int, bottom: int)

  /** The lowest cell an obstacle is drawn at. */
  const FIRST_CELL := 25
  /** The highest cell an obstacle is drawn at is this far before the end of the track. */
  const FINISH_GAP := 5
  /** A hit needs the player closer than two cells to the obstacle: four half cells. */
  const HIT_HALF_CELLS := 4

  /** The inclusive range the generator draws an obstacle cell from. */
  predicate InDrawRange(p: int, trackLength: int)
  {
    FIRST_CELL <= p <= trackLength - FINISH_GAP
  }

  /** All three draws lie in the generator's range. */
  predicate RollsInRange(r: Rolls, trackLength: int)
  {
    InDrawRange(r.top, trackLength) && InDrawRange(r.middle, trackLength) && InDrawRange(r.bottom, trackLength)
  }

  /** A lap's obstacle list as the generator leaves it: exactly three
      obstacles, the i-th in lane i, each in the draw range. */
  predicate WellPlaced(obs: seq<Obstacle>, trackLength: int)
  {
    |obs| == 3 && forall i :: 0 <= i < |obs| ==> obs[i].lane == i && InDrawRange(obs[i].position, trackLength)
  }

  /** The obstacles of a new lap, built from the three draws. */
  function Generate(trackLength: int, r: Rolls): (obs: seq<Obstacle>)
    ensures |obs| == 3
    ensures forall i :: 0 <= i < |obs| ==> obs[i].lane == i
    ensures WellPlaced(obs, trackLength) <==> RollsInRange(r, trackLength)
  {
    var obs := [Obstacle(0, r.top), Obstacle(1, r.middle), Obstacle(2, r.bottom)];
    assert WellPlaced(obs, trackLength) ==>
      InDrawRange(obs[0].position, trackLength) && InDrawRange(obs[1].position, trackLength) && InDrawRange(obs[2].position, trackLength);
    obs
  }

  /** Every well-placed list is what some in-range draws generate, so the
      draws cover exactly the placements the generator can produce. */
  lemma EveryPlacementIsDrawable(obs: seq<Obstacle>, trackLength: int)
    requires WellPlaced(obs, trackLength)
    ensures exists r :: RollsInRange(r, trackLength) && Generate(trackLength, r) == obs
  {
    var r := Rolls(obs[0].position, obs[1].position, obs[2].position);
    assert Generate(trackLength, r) == obs;
  }

  /** The draw range is empty unless the track has at least 30 cells: a
      shorter track leaves the generator nothing to draw. */
  lemma DrawableIffLongEnough(trackLength: int)
    ensures (exists r :: RollsInRange(r, trackLength)) <==> trackLength >= FIRST_CELL + FINISH_GAP
  {
    if trackLength >= FIRST_CELL + FINISH_GAP {
      assert RollsInRange(Rolls(FIRST_CELL, FIRST_CELL, FIRST_CELL), trackLength);
    }
  }

  /** Whether obstacle `o` hits a player in `lane` standing `halfPos` half
      cells along the track: same lane, and less than two cells apart. */
  predicate Hits(o: Obstacle, lane: int, halfPos: int)
  {
    o.lane == lane && -HIT_HALF_CELLS < halfPos - 2 * o.position < HIT_HALF_CELLS
  }

  /** Whether any obstacle of the list hits the player. */
  predicate Collides(obs: seq<Obstacle>, lane: int, halfPos: int)
  {
    exists i :: 0 <= i < |obs| && Hits(obs[i], lane, halfPos)
  }

  /** With one obstacle per lane, the obstacle of the player's own lane alone
      decides a collision. */
  lemma OwnLaneDecides(obs: seq<Obstacle>, trackLength: int, lane: int, halfPos: int)
    requires WellPlaced(obs, trackLength)
    ensures Collides(obs, lane, halfPos) <==> 0 <= lane < 3 && Hits(obs[lane], lane, halfPos)
  {
    if Collides(obs, lane, halfPos) {
      var i :| 0 <= i < |obs| && Hits(obs[i], lane, halfPos);
      assert obs[i].lane == i;
    }
  }

  /** A collision only happens more than three cells before the end of the
      track, since obstacles stop five cells before it. */
  lemma CollisionIsBeforeFinish(obs: seq<Obstacle>, trackLength: int, lane: int, halfPos: int)
    requires WellPlaced(obs, trackLength)
    requires Collides(obs, lane, halfPos)
    ensures halfPos < 2 * (trackLength - FINISH_GAP) + HIT_HALF_CELLS
  {
    var i :| 0 <= i < |obs| && Hits(obs[i], lane, halfPos);
    assert InDrawRange(obs[i].position, trackLength);
  }
}
