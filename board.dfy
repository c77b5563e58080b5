/** Fixed configuration of the game: the 15x15 board, the fleet size, the
    shot budget, the asset names a tile can show, and the range the random
    ship generator draws from. */
module Board {

  const BoardWidth: nat := 15
  const BoardHeight: nat := 15
  const ShipCount: nat := 5
  const ShotCount: nat := 90
  const MinShipLength: nat := 3
  const MaxShipLength: nat := 7

  /** Every image the game loads before it starts; a tile can only show one of these. */
  const Assets: seq<string> := [
    "btn_airstrike", "btn_radar", "btn_salvo", "btn_shell", "hit", "miss",
    "ship_down_hit", "ship_down", "ship_horizontal_hit", "ship_horizontal",
    "ship_left_hit", "ship_left", "ship_right_hit", "ship_right",
    "ship_up_hit", "ship_up", "ship_vertical_hit", "ship_vertical", "water"]

  /** A board cell as (x, y): x is the column, y the row. */
  type Cell = (int, int)

  predicate OnBoard(c: Cell) {
    0 <= c.0 < BoardWidth && 0 <= c.1 < BoardHeight
  }

  /** The values the ship generator can draw: a length in [3, 7] and an
      origin in [0, 15 - length] on BOTH axes, whatever the orientation. */
  predicate Placeable(x: int, y: int, length: int) {
    MinShipLength <= length <= MaxShipLength &&
    0 <= x <= BoardWidth - length &&
    0 <= y <= BoardHeight - length
  }

  /** The suffix the ship assets carry when the section has been shot. */
  function HitSuffix(hit: bool): string {
    if hit then "_hit" else ""
  }

  predicate HasHitSuffix(s: string) {
    |s| >= 4 && s[|s| - 4..] == "_hit"
  }
}
