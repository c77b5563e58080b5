# Battleships game logic in Dafny

A model of the game logic of a browser Battleships game (`script.js`). A
session hides five ships on a 15×15 board and the player gets 90 shots.
Each click resolves a shell against the fleet and shows "hit" or "miss".
The game ends when the shots run out or every ship is destroyed. At the
end a reveal pass redraws the board: ship assets or water on every cell,
then the hit variant or "miss" on every shot cell.

Modules:

- `Board` (`board.dfy`) holds the constants, the asset names, board
  cells and the generator's range.
- `Ships` (`ships.dfy`) is the ship object, a `class Ship` whose `sections`
  flags `Hits` updates in place. It also has the `collides` predicate,
  `destroyed` and `getAsset`.
- `Fleet` (`fleet.dfy`) holds value-level functions that specify the fleet
  operations:
  - which ship a shell lands on (`FirstOccupant`: the first in placement
    order);
  - a fleet's damage after a sequence of shells (`ShootCells`);
  - the damage after the reveal's one shell per board cell (`Swept`).
- `Game` (`game.dfy`) is the `class Battleships` controller. It holds the
  fields `running`, `ships`, `shots` and `previousShells` and a 15×15
  `array2<string>` of tile asset names. Its methods mirror the source's
  methods and loops. `Valid()` ties the ships' flags and every tile to the
  ledger and the phase.

Behaviours of the code that the model keeps and proves:

- `collides` sizes the other ship's box with this ship's length, so it is
  not symmetric. Its comparisons are strict, so a ship collides with one
  that starts right after its last cell. The reverse test, asked of the
  later ship, fails when the first ship is longer
  (`Ships.TouchingShipsCollide`). Placement asks the existing ship about the
  newcomer, so a longer newcomer can be placed touching a shorter ship that
  lies right after it.
- Placing a ship only asks the ships already placed whether they collide
  with the newcomer. So a long ship can cross a short one placed earlier.
  The short one then takes every shell on the shared cell, the long one
  can never be sunk, and the game cannot be won
  (`Game.OverlapMakesFleetUnsinkable`).
- The reveal resolves a shell on every board cell and again on every shot
  cell, through `hits`, so it marks ship sections as hit. For a fleet
  without shared cells it marks every section (`Game.RevealSinksDisjointFleet`).
- `checkWin` is true for an empty fleet, so with no ships the first shot
  ends the game as a win (`Game.EmptyFleetIsSunk`,
  `Game.Battleships.CheckWin`).
- A win takes precedence over running out of shots.

Randomness is an input. `TryPlace` takes one draw of the generator, and
`PlaceFleet` takes a finite stream of draws. The display of an image
becomes a write of its asset name into the tile grid (`Paint`).

## Model

| member | source | states |
|---|---|---|
| Game.PlacedShipOnBoard | script.js:157-163 | every section of a ship drawn from the generator's range lies on the 15×15 board |
| Ships.Ship.constructor | script.js:30-40 | the new ship keeps its origin, length and orientation, has one section flag per unit of length, and every flag is false |
| Ships.Ship.Hits | script.js:43-67 | the result is true exactly when the cell lies on the ship's span; on a hit exactly the section under the shell is set; nothing else changes; a miss changes nothing |
| Ships.Ship.Struck | script.js:64 | after a shell only the flag under it may change, and it becomes true exactly when the shell lies on the span at that section's cell |
| Ships.StruckIdempotent | script.js:43-67 | repeating the same shell leaves the flags as one shell does |
| Ships.CollidesIffNear | script.js:70-90 | `collides` holds exactly when some cell of this ship is equal or adjacent to some cell of the other ship's footprint, that footprint being this ship's length long |
| Ships.Ship.Collides | script.js:70-90 | the box test as written; its meaning is given by `Ships.CollidesIffNear`, `Ships.TouchingShipsCollide` and `Ships.CollidesNotSymmetric` |
| Ships.TouchingShipsCollide | script.js:84-89 | a horizontal ship collides with one that starts right after its last cell, without sharing a cell with it; the later ship collides back exactly when it is at least as long |
| Ships.CollidesNotSymmetric | script.js:77-82 | a 7-long ship collides with a 3-long one starting right after it, but not the other way round |
| Ships.Ship.Destroyed | script.js:93-100 | the result is true exactly when every section flag is set |
| Ships.Ship.GetAsset | script.js:103-114 | the tile name as the source builds it; its meaning is given by `Ships.GetAssetIsTableEntry` |
| Ships.GetAssetIsTableEntry | script.js:103-114 | the first section gets up/left, an interior one vertical/horizontal, the last one and any cell off the span down/right; the name is a loaded asset and carries `_hit` exactly when asked for |
| Ships.ShipAssetNames | script.js:9 | every ship tile name is among the loaded assets, and its `_hit` suffix matches the hit argument |
| Fleet.FirstOccupant | script.js:204-215 | the first ship in placement order whose span holds the cell, or none exactly when no ship's span holds it |
| Fleet.Shoot | script.js:204-215 | a shell sets the flag under it on the first ship there and changes no other flag |
| Fleet.ShootCellsAt | script.js:175-187 | after a sequence of shells a section is hit exactly when it was before or some shell fell on its cell while its ship is the first one there |
| Fleet.ShootCellsIdempotent | script.js:175-187 | shooting the same cells once more changes no flag |
| Fleet.SunkIffEveryCellShot | script.js:93-100 | a ship is destroyed exactly when every one of its cells was shot while it is the first ship on that cell |
| Fleet.SweepBoard | script.js:253-261 | one shell on every board cell, in any order, yields the swept damage |
| Fleet.SweptAbsorbs | script.js:264-271 | the second reveal pass adds no damage to a swept fleet |
| Fleet.SweptForgets | script.js:253-261 | the sweep gives the same damage whatever shots came before |
| Fleet.ScanStep | script.js:254-260 | the shell on one cell moves the row-by-row scan one cell on |
| Fleet.SweepSinksDisjointFleet | script.js:253-261 | for an on-board fleet without shared cells the sweep marks every section of every ship |
| Game.PlayTileMeaning | script.js:178-181 | during play every tile is a loaded asset, and shows "hit" exactly on shot cells some ship covers |
| Game.RevealedTileMeaning | script.js:253-273 | after the reveal every tile is a loaded asset; a ship cell shows a ship asset with `_hit` exactly when shot; an empty cell shows "miss" when shot and "water" otherwise |
| Game.Battleships.constructor | script.js:143-147 | a new session runs with no ships, the whole budget, an empty ledger and an all-water board (each tile shows water as the tile loop creates it, script.js:195) |
| Game.Battleships.TryPlace | script.js:155-166 | one placement attempt builds the drawn ship and adds it exactly when no ship placed so far collides with it |
| Game.Battleships.PlaceFleet | script.js:153-167 | the fleet is exactly the accepted part of the draws consumed, in order; the loop stops with five ships or with the draws used up, and no later than the draw that fills the fleet; the game invariant holds |
| Game.AcceptedIsPlacement | script.js:155-166 | the accepted draws are at most five, each one of the draws, and none collides with a ship accepted before it |
| Game.AcceptedStep | script.js:156-166 | one more draw joins the fleet exactly when the fleet is not full and no placed ship collides with it |
| Game.Battleships.Enlist | script.js:166 | an accepted ship joins the end of the fleet and the game invariant still holds |
| Game.Battleships.FullCollideShip | script.js:227-238 | the lowest index of a placed ship that collides with the candidate, or none exactly when none does |
| Game.Battleships.FullCollideShell | script.js:204-215 | the lowest index of a ship whose span holds the cell, or none; only that ship records the hit |
| Game.Battleships.PreviousShellsFullCollide | script.js:217-224 | true exactly when the cell is in the ledger |
| Game.Battleships.CheckWin | script.js:241-248 | true exactly when every ship is destroyed, so true for an empty fleet |
| Game.Battleships.Click | script.js:175-193 | a click while stopped or on a shot cell changes nothing; otherwise it shoots, the ledger gains the cell at its end, one shot is spent, the game stops exactly when the shots are gone or the fleet is sunk, the result is the win check, and a continuing game shows hit or miss on the cell |
| Game.Battleships.Play | script.js:178-192 | a fresh shot keeps the invariant, extends the ledger by the cell and spends one shot; the game ends exactly on exhaustion or a win, and a win takes precedence |
| Game.Battleships.Fire | script.js:178-186 | the shell is resolved, the ledger and budget record it, and every tile shows the play tile of the extended ledger |
| Game.Battleships.Strike | script.js:178-182 | the shell's damage is one more shot of the fleet; its cell shows "hit" exactly when a ship covers it, else "miss", and every tile shows the play tile of the ledger with the shell added |
| Game.Battleships.Paint | script.js:130-132 | a display writes exactly the one tile, and no other tile, field or ship changes |
| Game.Battleships.EndGame | script.js:189-192 | the game stops, the result is whether the fleet is sunk, and the reveal leaves the invariant of a finished game |
| Game.Battleships.RevealCell | script.js:255-259 | one cell of the board pass shows the un-hit asset of the first ship there, or water, and records the shell; every cell later in the scan keeps its tile |
| Game.Battleships.RevealRow | script.js:254-260 | after one row of the board pass every scanned cell shows its un-hit tile and every cell of a later row keeps its tile |
| Game.Battleships.RevealBoard | script.js:253-261 | after the board pass every cell shows its un-hit tile and the fleet holds the swept damage |
| Game.Battleships.RevealShell | script.js:264-271 | one step of the ledger pass shows the hit asset of the first ship on the shot cell, or miss |
| Game.Battleships.RevealLedger | script.js:264-271 | after the ledger pass every shot cell shows its hit tile and every other cell keeps its un-hit tile |
| Game.Battleships.GameEnd | script.js:251-273 | after both passes every tile shows its revealed tile, and the fleet holds the sweep followed by the ledger's shells |
| Game.RevealSinksDisjointFleet | script.js:253-261 | when no two placed ships share a cell, every section is hit after the reveal, whatever was shot |
| Game.OverlapMakesFleetUnsinkable | script.js:77-82 | placement accepts a 7-long vertical ship crossing a 3-long horizontal one placed earlier, and then no sequence of shells sinks the fleet |
| Game.ThreeShellsSinkShip | script.js:43-67 | three shells along a 3-long horizontal ship sink it |
| Game.EmptyFleetIsSunk | script.js:242-247 | a fleet with no ships counts as sunk after any shots |

## Left out

- The DOM is not modelled: element handles, the shot counter and win message
  text, image elements and the wiring of listeners. A tile is modelled as its
  asset name.
- Asset download, the canvas and base64 conversion, and the `Promise.all`
  startup are not modelled. They are asynchronous I/O.
- `Math.random` is not modelled. Generator draws are parameters, and the
  draws are assumed to respect the generator's range (`Board.Placeable`).
- The unbounded `do…while` retry of a colliding draw is left out, because it
  has no termination argument. `PlaceFleet` consumes a finite stream of draws.
- Game.Battleships.PlaceFleet: it states "five ships or the draws used up"
  rather than "five ships", because only the unbounded retry guarantees five.
  Which ships are placed is stated in full (`Game.Accepted`).
- The `setInterval` colour pulse of the win message and the `clearInterval`
  restart handler are left out. They are timers and UI; a restart is a new
  `Battleships` object.
- The source creates the tile images after placing the ships. The model's
  constructor creates the all-water grid first. Placement does not touch tiles,
  so the state is the same.
- The order of one shot differs: the model writes the ledger and the budget
  (`Fire`) before it resolves the shell and paints the tile. The source does
  it the other way round. Resolving and painting do not read the ledger or
  the budget, so the resulting state is the same.
- `Ship.length` is a `nat`. The generator only produces lengths from 3 to 7.
