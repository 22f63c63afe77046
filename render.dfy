/** The text view of the track: three lane rows and a finish row.

    Cells are abstract glyphs (road surface, tree, car); the lane rows are
    shown in the game as `"<lane+1> ║<cells>║"` and the finish row as a run
    of road glyphs between `╠` and `╣`. A cell holds the car if the player is
    there, otherwise a tree if an obstacle of that lane is there, otherwise
    road: obstacles are drawn first and the car is drawn over them. */
module Rendering {
  import opened Obstacles
  import opened Rules

  datatype Glyph = Road | Tree | Car

  datatype Line =
    | LaneRow(number: int, cells: seq<Glyph>)   // lane number, counted from 1
    | FinishRow(width: nat)                      // width cells of finish line

  /** The cell a position in half cells falls in, truncated toward zero as
      Python's `int` does. */
  function CellOf(halfPos: int): (c: int)
    ensures 0 <= halfPos ==> 2 * c <= halfPos < 2 * c + 2
    ensures halfPos < 0 ==> 2 * c - 2 < halfPos <= 2 * c
  {
    if halfPos >= 0 then halfPos / 2 else -((-halfPos) / 2)
  }

  /** Cells in a row: the track length (a list of negative length is empty). */
  function Width(g: Game): (w: nat)
  {
    if g.trackLength > 0 then g.trackLength else 0
  }

  /** Some obstacle of `lane` stands in cell `j`. */
  predicate ObstacleAt(obs: seq<Obstacle>, lane: int, j: int)
  {
    exists i :: 0 <= i < |obs| && obs[i].lane == lane && obs[i].position == j
  }

  /** Looking at one more obstacle adds exactly that obstacle's cell. */
  lemma ObstacleAtExtend(obs: seq<Obstacle>, k: int, lane: int)
    requires 0 <= k < |obs|
    ensures forall j :: ObstacleAt(obs[..k + 1], lane, j) <==>
      ObstacleAt(obs[..k], lane, j) || (obs[k].lane == lane && obs[k].position == j)
  {
    forall j
      ensures ObstacleAt(obs[..k + 1], lane, j) <==>
        ObstacleAt(obs[..k], lane, j) || (obs[k].lane == lane && obs[k].position == j)
    {
      if ObstacleAt(obs[..k + 1], lane, j) {
        var i :| 0 <= i < k + 1 && obs[..k + 1][i].lane == lane && obs[..k + 1][i].position == j;
        if i < k {
          assert obs[..k][i] == obs[i];
        }
      }
      if ObstacleAt(obs[..k], lane, j) {
        var i :| 0 <= i < k && obs[..k][i].lane == lane && obs[..k][i].position == j;
        assert obs[..k + 1][i] == obs[i];
      }
      if obs[k].lane == lane && obs[k].position == j {
        assert obs[..k + 1][k] == obs[k];
      }
    }
  }

  function Cell(g: Game, lane: int, j: int): (glyph: Glyph)
  {
    if lane == g.lane && j == CellOf(g.halfPosition) then Car
    else if ObstacleAt(g.obstacles, lane, j) then Tree
    else Road
  }

  function LaneCells(g: Game, lane: int): (cells: seq<Glyph>)
  {
    seq(Width(g), j => Cell(g, lane, j))
  }

  function LaneRows(g: Game): (rows: seq<Line>)
  {
    seq(3, lane => LaneRow(lane + 1, LaneCells(g, lane)))
  }

  /** The whole picture of the track. */
  function Render(g: Game): (lines: seq<Line>)
  {
    LaneRows(g) + [FinishRow(Width(g))]
  }

  /** Four lines: lanes 1, 2 and 3, each as wide as the track, then the
      finish row of the same width. */
  lemma RenderShape(g: Game)
    ensures |Render(g)| == 4
    ensures forall l :: 0 <= l < 3 ==> Render(g)[l].LaneRow? && Render(g)[l].number == l + 1
                                       && |Render(g)[l].cells| == Width(g)
    ensures Render(g)[3] == FinishRow(Width(g))
  {
  }

  /** The car glyph is in the player's lane at the player's cell and
      nowhere else; it wins a cell it shares with an obstacle. */
  lemma CarOnlyAtPlayer(g: Game, l: int, j: int)
    requires 0 <= l < 3 && 0 <= j < Width(g)
    ensures Render(g)[l].cells[j] == Car <==> l == g.lane && j == CellOf(g.halfPosition)
  {
  }

  /** An obstacle in bounds shows as a tree in its lane unless the car
      covers it; a cell with neither shows road. */
  lemma TreesAndRoad(g: Game, l: int, j: int)
    requires 0 <= l < 3 && 0 <= j < Width(g)
    ensures Render(g)[l].cells[j] == Tree <==> ObstacleAt(g.obstacles, l, j) && !(l == g.lane && j == CellOf(g.halfPosition))
    ensures Render(g)[l].cells[j] == Road <==> !ObstacleAt(g.obstacles, l, j) && !(l == g.lane && j == CellOf(g.halfPosition))
  {
  }

  /** In every reachable state the car is on screen, and each obstacle is on
      screen in its own lane, as a tree unless the car covers it. */
  lemma ValidGameIsFullyDrawn(g: Game)
    requires Valid(g)
    ensures Render(g)[g.lane].cells[CellOf(g.halfPosition)] == Car
    ensures forall i :: 0 <= i < 3 ==>
      0 <= g.obstacles[i].position < |Render(g)[i].cells|
      && (Render(g)[i].cells[g.obstacles[i].position] == Tree
          || (i == g.lane && g.obstacles[i].position == CellOf(g.halfPosition)))
  {
    forall i | 0 <= i < 3
      ensures ObstacleAt(g.obstacles, i, g.obstacles[i].position)
    {
      assert g.obstacles[i].lane == i;
    }
  }
}
