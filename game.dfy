/** The game controller: the fleet, the shot budget, the ledger of cells
    already fired on, and the 15x15 grid of tiles, each tile holding the
    name of the asset it shows. */
module Game {
  import opened Board
  import opened Ships
  import opened Fleet

  /** What a click did: nothing, a shot after which play goes on, or a shot
      that ended the game with the given result. */
  datatype ClickOutcome = Ignored | Continues | Ended(win: bool)

  /** One draw of the random ship generator: origin, length, orientation. */
  datatype Draw = Draw(x: int, y: int, length: nat, vertical: bool)

  /** The tile of a cell during play: water until it is shot, then hit or miss. */
  function PlayTile(ships: seq<Ship>, shells: seq<Cell>, c: Cell): string {
    if c in shells then (if FirstOccupant(ships, c).CollidesWith? then "hit" else "miss")
    else "water"
  }

  /** The tile the first reveal pass writes: the un-hit ship asset or water. */
  function UnshotTile(ships: seq<Ship>, c: Cell): string {
    match FirstOccupant(ships, c)
    case CollidesWith(i) => ships[i].GetAsset(c.0, c.1, false)
    case NoCollision => "water"
  }

  /** The tile the second reveal pass writes on a shot cell: the hit ship
      asset or miss. */
  function ShotTile(ships: seq<Ship>, c: Cell): string {
    match FirstOccupant(ships, c)
    case CollidesWith(i) => ships[i].GetAsset(c.0, c.1, true)
    case NoCollision => "miss"
  }

  /** The tile after the reveal. The ledger pass runs after the board pass,
      so on a shot cell its tile is the one that stays. */
  function RevealedTile(ships: seq<Ship>, shells: seq<Cell>, c: Cell): string {
    if c in shells then ShotTile(ships, c) else UnshotTile(ships, c)
  }

  /** During play every tile names a loaded asset, and "hit" marks exactly
      the shot cells a ship covers. */
  lemma PlayTileMeaning(ships: seq<Ship>, shells: seq<Cell>, c: Cell)
    ensures PlayTile(ships, shells, c) in Assets
    ensures PlayTile(ships, shells, c) == "hit" <==> c in shells && FirstOccupant(ships, c).CollidesWith?
  {
  }

  /** After the reveal, every tile names a loaded asset; a ship cell shows a
      ship asset, with the hit variant exactly on shot cells; an empty cell
      shows miss when shot and water otherwise. */
  lemma RevealedTileMeaning(ships: seq<Ship>, shells: seq<Cell>, c: Cell)
    ensures RevealedTile(ships, shells, c) in Assets
    ensures FirstOccupant(ships, c).CollidesWith? ==>
              IsShipTile(RevealedTile(ships, shells, c)) &&
              (HasHitSuffix(RevealedTile(ships, shells, c)) <==> c in shells)
    ensures FirstOccupant(ships, c) == NoCollision ==>
              RevealedTile(ships, shells, c) == if c in shells then "miss" else "water"
  {
    match FirstOccupant(ships, c)
    case NoCollision =>
    case CollidesWith(i) =>
      GetAssetIsTableEntry(ships[i], c.0, c.1, c in shells);
  }

  /** The generator values a ship was built from. */
  function DrawOf(s: Ship): Draw {
    Draw(s.x, s.y, s.length, s.vertical)
  }

  /** The generator values of a fleet, in placement order. */
  function Drawn(ships: seq<Ship>): (r: seq<Draw>)
    ensures |r| == |ships|
    ensures forall i :: 0 <= i < |ships| ==> r[i] == DrawOf(ships[i])
  {
    seq(|ships|, i requires 0 <= i < |ships| => DrawOf(ships[i]))
  }

  /** Does the ship of draw `a`, already placed, collide with the ship of draw `b`? */
  predicate DrawCollides(a: Draw, b: Draw) {
    BoxCollides(a.x, a.y, a.length, a.vertical, b.x, b.y, b.vertical)
  }

  /** No ship of the fleet `fleet` collides with the ship of draw `d`. */
  predicate Admits(fleet: seq<Draw>, d: Draw) {
    forall j :: 0 <= j < |fleet| ==> !DrawCollides(fleet[j], d)
  }

  /** The ships' own collision test agrees with the one on their draws. */
  lemma DrawnAdmits(ships: seq<Ship>, ship: Ship)
    ensures (forall i :: 0 <= i < |ships| ==> !ships[i].Collides(ship)) <==> Admits(Drawn(ships), DrawOf(ship))
  {
  }

  /** Appending a ship appends its draw. */
  lemma DrawnSnoc(ships: seq<Ship>, ship: Ship)
    ensures Drawn(ships + [ship]) == Drawn(ships) + [DrawOf(ship)]
  {
  }

  /** The fleet the placement loop builds from a stream of draws: a draw
      joins the fleet when the fleet is not yet full and no ship placed so
      far collides with it; otherwise it is dropped. */
  function Accepted(draws: seq<Draw>): seq<Draw>
    decreases |draws|
  {
    if draws == [] then []
    else
      var fleet := Accepted(draws[..|draws| - 1]);
      var d := draws[|draws| - 1];
      if |fleet| < ShipCount && Admits(fleet, d) then fleet + [d]
      else fleet
  }

  /** One more draw is one more step of the placement rule. */
  lemma AcceptedStep(draws: seq<Draw>, n: nat)
    requires n < |draws|
    ensures Accepted(draws[..n + 1]) ==
              var fleet := Accepted(draws[..n]);
              if |fleet| < ShipCount && Admits(fleet, draws[n]) then fleet + [draws[n]]
              else fleet
  {
    assert draws[..n + 1][..n] == draws[..n];
  }

  /** The accepted draws form a fleet the placement loop allows: at most
      five ships, each one of the draws, none colliding with a ship
      accepted before it. */
  lemma {:induction false} AcceptedIsPlacement(draws: seq<Draw>)
    ensures |Accepted(draws)| <= ShipCount
    ensures forall i :: 0 <= i < |Accepted(draws)| ==> Accepted(draws)[i] in draws
    ensures forall i, j :: 0 <= i < j < |Accepted(draws)| ==> !DrawCollides(Accepted(draws)[i], Accepted(draws)[j])
  {
    if draws != [] {
      var front := draws[..|draws| - 1];
      AcceptedIsPlacement(front);
      assert forall d :: d in front ==> d in draws;
    }
  }

  /** What the placement loop guarantees: at most five ships, each drawn
      from the generator's range, none colliding with one placed before it. */
  predicate Placement(ships: seq<Ship>) {
    |ships| <= ShipCount &&
    (forall i :: 0 <= i < |ships| ==> Placeable(ships[i].x, ships[i].y, ships[i].length)) &&
    (forall i, j :: 0 <= i < j < |ships| ==> !ships[i].Collides(ships[j]))
  }

  /** The ledger holds distinct board cells, and with the shots left it
      accounts for the whole budget. */
  predicate Ledger(shells: seq<Cell>, shots: int) {
    (forall i, j :: 0 <= i < j < |shells| ==> shells[i] != shells[j]) &&
    (forall c :: c in shells ==> OnBoard(c)) &&
    0 <= shots && |shells| + shots == ShotCount
  }

  /** The section flags the ledger accounts for: the shells fired so far
      while the game runs, and the sweep of the whole board once it ended. */
  function ExpectedDamage(running: bool, ships: seq<Ship>, shells: seq<Cell>): seq<seq<bool>> {
    if running then ShootCells(ships, Zero(ships), shells) else Swept(ships, Zero(ships))
  }

  /** The tile a cell should show in the given phase. */
  function Shown(running: bool, ships: seq<Ship>, shells: seq<Cell>, c: Cell): string {
    if running then PlayTile(ships, shells, c) else RevealedTile(ships, shells, c)
  }

  class Battleships {
    var running: bool
    var ships: seq<Ship>
    var shots: int
    var previousShells: seq<Cell>
    /** tiles[y, x] is the asset shown at column x of row y. */
    const tiles: array2<string>

    /** The tile grid is 15 rows of 15 cells. */
    predicate Sized() {
      tiles.Length0 == BoardHeight && tiles.Length1 == BoardWidth
    }

    /** The game invariant: the ships' flags and the tiles are determined by
        the fleet, the ledger and the phase; a running game has shots left;
        a finished one used them all or sank the fleet. */
    ghost predicate Valid()
      reads this, ships, tiles
    {
      Sized() && Placement(ships) && Ledger(previousShells, shots) && Distinct(ships) &&
      (running ==> shots > 0) &&
      (!running ==> shots == 0 || AllSunk(ShootCells(ships, Zero(ships), previousShells))) &&
      Holds(ships, ExpectedDamage(running, ships, previousShells)) &&
      forall cy, cx :: 0 <= cy < BoardHeight && 0 <= cx < BoardWidth ==>
        tiles[cy, cx] == Shown(running, ships, previousShells, (cx, cy))
    }

    /** A new session before any ship is placed: all water, the whole budget. */
    constructor ()
      ensures Valid() && fresh(tiles)
      ensures running && ships == [] && shots == ShotCount && previousShells == []
    {
      running := true;
      ships := [];
      shots := ShotCount;
      previousShells := [];
      tiles := new string[BoardHeight, BoardWidth]((_, _) => "water");
    }

    /** One attempt of the placement loop: build the drawn ship and keep it
        when no ship placed so far collides with it. */
    method TryPlace(x: int, y: int, length: nat, vertical: bool) returns (ship: Ship, placed: bool)
      requires Valid() && running && previousShells == [] && |ships| < ShipCount
      requires Placeable(x, y, length)
      modifies this
      ensures Valid()
      ensures fresh(ship) && ship.x == x && ship.y == y && ship.length == length && ship.vertical == vertical
      ensures placed <==> forall i :: 0 <= i < |old(ships)| ==> !old(ships)[i].Collides(ship)
      ensures ships == if placed then old(ships) + [ship] else old(ships)
      ensures running && previousShells == [] && shots == old(shots)
    {
      ship := new Ship(x, y, length, vertical);
      var collision := FullCollideShip(ship);
      placed := collision == NoCollision;
      if placed {
        Enlist(ship);
      }
    }

    /** The placement loop over a finite stream of generator draws: each
        draw is one attempt, a colliding draw is dropped and the next one is
        tried, and the loop stops once the fleet has `ShipCount` ships. It
        returns how many draws it consumed; the fleet is the accepted part
        of those draws. */
    method PlaceFleet(draws: seq<Draw>) returns (used: nat)
      requires Valid() && running && previousShells == [] && ships == []
      requires forall i :: 0 <= i < |draws| ==> Placeable(draws[i].x, draws[i].y, draws[i].length)
      modifies this
      ensures Valid() && running && previousShells == [] && shots == old(shots)
      ensures used <= |draws| && Drawn(ships) == Accepted(draws[..used])
      ensures |ships| == ShipCount || used == |draws|
      ensures 0 < used ==> |Accepted(draws[..used - 1])| < ShipCount
    {
      used := 0;
      while used < |draws| && |ships| < ShipCount
        invariant Valid() && running && previousShells == [] && shots == old(shots)
        invariant used <= |draws| && Drawn(ships) == Accepted(draws[..used])
        invariant 0 < used ==> |Accepted(draws[..used - 1])| < ShipCount
        decreases |draws| - used
      {
        var draw := draws[used];
        ghost var before := ships;
        AcceptedStep(draws, used);
        var ship, placed := TryPlace(draw.x, draw.y, draw.length, draw.vertical);
        DrawnAdmits(before, ship);
        DrawnSnoc(before, ship);
        used := used + 1;
      }
    }

    /** Add a ship the placement loop accepted to the fleet. */
    method Enlist(ship: Ship)
      requires Valid() && running && previousShells == [] && |ships| < ShipCount
      requires ship !in ships && ship.Valid() && forall k :: 0 <= k < ship.length ==> !ship.sections[k]
      requires Placeable(ship.x, ship.y, ship.length)
      requires forall i :: 0 <= i < |ships| ==> !ships[i].Collides(ship)
      modifies this
      ensures Valid()
      ensures ships == old(ships) + [ship]
      ensures running && previousShells == [] && shots == old(shots)
    {
      assert forall cy, cx :: 0 <= cy < BoardHeight && 0 <= cx < BoardWidth ==> tiles[cy, cx] == "water";
      assert ship.sections == Zero(ships + [ship])[|ships|];
      ships := ships + [ship];
    }

    /** The first ship, in placement order, that collides with `ship`. */
    method FullCollideShip(ship: Ship) returns (r: Collision)
      ensures r.CollidesWith? ==>
                r.ship < |ships| && ships[r.ship].Collides(ship) &&
                forall j :: 0 <= j < r.ship ==> !ships[j].Collides(ship)
      ensures r == NoCollision <==> forall j :: 0 <= j < |ships| ==> !ships[j].Collides(ship)
    {
      for i := 0 to |ships|
        invariant forall j :: 0 <= j < i ==> !ships[j].Collides(ship)
      {
        if ships[i].Collides(ship) { return CollidesWith(i); }
      }
      return NoCollision;
    }

    /** Resolve a shell on a fleet holding damage `d`: the first ship, in
        placement order, that it hits, which records the hit on that ship
        alone. */
    method FullCollideShell(cx: int, cy: int, ghost d: seq<seq<bool>>) returns (r: Collision)
      requires Distinct(ships) && Holds(ships, d)
      modifies ships
      ensures unchanged(this)
      ensures r == FirstOccupant(ships, (cx, cy))
      ensures Holds(ships, Shoot(ships, d, (cx, cy)))
    {
      for i := 0 to |ships|
        invariant Holds(ships, d)
        invariant forall j :: 0 <= j < i ==> !ships[j].Occupies(cx, cy)
      {
        var hit := ships[i].Hits(cx, cy);
        if hit {
          assert FirstOccupant(ships, (cx, cy)) == CollidesWith(i);
          return CollidesWith(i);
        }
      }
      return NoCollision;
    }

    /** Has the cell already been fired on? */
    method PreviousShellsFullCollide(cx: int, cy: int) returns (found: bool)
      ensures found <==> (cx, cy) in previousShells
    {
      for i := 0 to |previousShells|
        invariant forall j :: 0 <= j < i ==> previousShells[j] != (cx, cy)
      {
        var pshell := previousShells[i];
        if pshell.0 == cx && pshell.1 == cy { return true; }
      }
      return false;
    }

    /** The win check: every ship is destroyed, which an empty fleet trivially is. */
    method CheckWin() returns (win: bool)
      ensures win <==> forall i :: 0 <= i < |ships| ==> ships[i].IsDestroyed()
      ensures win <==> AllSunk(DamageOf(ships))
    {
      win := true;
      for i := 0 to |ships|
        invariant win <==> forall j :: 0 <= j < i ==> ships[j].IsDestroyed()
      {
        var destroyed := ships[i].Destroyed();
        if !destroyed { win := false; }
      }
    }

    /** A running game with shots left is valid when the ships hold the
        damage of the ledger's shells and the tiles show the play tiles. */
    lemma RunningValid()
      requires Sized() && Placement(ships) && Ledger(previousShells, shots) && Distinct(ships)
      requires running && shots > 0
      requires Holds(ships, ShootCells(ships, Zero(ships), previousShells))
      requires forall y, x :: 0 <= y < BoardHeight && 0 <= x < BoardWidth ==>
                 tiles[y, x] == PlayTile(ships, previousShells, (x, y))
      ensures Valid()
    {
    }

    /** The click handler of cell (cx, cy). */
    method Click(cx: int, cy: int) returns (outcome: ClickOutcome)
      requires Valid() && OnBoard((cx, cy))
      modifies this, tiles, ships
      ensures Valid() && ships == old(ships)
      ensures outcome == Ignored <==> !old(running) || (cx, cy) in old(previousShells)
      ensures outcome == Ignored ==>
                running == old(running) && shots == old(shots) && previousShells == old(previousShells) &&
                unchanged(tiles) && unchanged(ships)
      ensures outcome != Ignored ==>
                previousShells == old(previousShells) + [(cx, cy)] && shots == old(shots) - 1
      ensures outcome != Ignored ==>
                var win := AllSunk(ShootCells(ships, Zero(ships), previousShells));
                running == !(shots == 0 || win) &&
                outcome == (if running then Continues else Ended(win))
      ensures outcome == Continues ==>
                tiles[cy, cx] == (if FirstOccupant(ships, (cx, cy)).CollidesWith? then "hit" else "miss")
    {
      if !running { return Ignored; }
      var repeated := PreviousShellsFullCollide(cx, cy);
      if repeated { return Ignored; }

      outcome := Play(cx, cy);
    }

    /** A click on a cell not fired on before, while the game runs: fire,
        then end the game when the budget is spent or the fleet is sunk. */
    method Play(cx: int, cy: int) returns (outcome: ClickOutcome)
      requires Valid() && OnBoard((cx, cy)) && running && (cx, cy) !in previousShells
      modifies this, tiles, ships
      ensures Valid() && ships == old(ships)
      ensures previousShells == old(previousShells) + [(cx, cy)] && shots == old(shots) - 1
      ensures var win := AllSunk(ShootCells(ships, Zero(ships), previousShells));
              running == !(shots == 0 || win) &&
              outcome == (if running then Continues else Ended(win))
      ensures outcome == Continues ==>
                tiles[cy, cx] == (if FirstOccupant(ships, (cx, cy)).CollidesWith? then "hit" else "miss")
    {
      Fire(cx, cy);
      var over := shots == 0;
      if !over {
        over := CheckWin();
        HoldsDamageOf(ships, ShootCells(ships, Zero(ships), previousShells));
        if !over {
          RunningValid();
          assert previousShells[|previousShells| - 1] == (cx, cy);
          assert tiles[cy, cx] == PlayTile(ships, previousShells, (cx, cy));
        }
      }
      if over {
        var win := EndGame();
        outcome := Ended(win);
      } else {
        outcome := Continues;
      }
    }

    /** The game is over: stop play, decide the result from the fleet, and
        reveal the board. */
    method EndGame() returns (win: bool)
      requires Sized() && Placement(ships) && Ledger(previousShells, shots) && Distinct(ships)
      requires Holds(ships, ShootCells(ships, Zero(ships), previousShells))
      requires shots == 0 || AllSunk(ShootCells(ships, Zero(ships), previousShells))
      modifies this, tiles, ships
      ensures Valid() && !running
      ensures ships == old(ships) && previousShells == old(previousShells) && shots == old(shots)
      ensures win == AllSunk(ShootCells(ships, Zero(ships), previousShells))
    {
      running := false;
      win := CheckWin();
      ghost var shot := ShootCells(ships, Zero(ships), previousShells);
      HoldsDamageOf(ships, shot);
      GameEnd(shot);
      SweptAbsorbs(ships, shot, previousShells);
      SweptForgets(ships, Zero(ships), previousShells);
      FinishedValid();
    }

    /** A finished game is valid when it spent its shots or sank the fleet,
        the ships hold the sweep of the untouched fleet and the tiles show
        the revealed tiles. */
    lemma FinishedValid()
      requires Sized() && Placement(ships) && Ledger(previousShells, shots) && Distinct(ships)
      requires !running && (shots == 0 || AllSunk(ShootCells(ships, Zero(ships), previousShells)))
      requires Holds(ships, Swept(ships, Zero(ships)))
      requires forall cy, cx :: 0 <= cy < BoardHeight && 0 <= cx < BoardWidth ==>
                 tiles[cy, cx] == RevealedTile(ships, previousShells, (cx, cy))
      ensures Valid()
    {
    }

    /** A shell on a cell not fired on before, while the game runs: it is
        resolved through the fleet, the cell shows hit or miss, and the
        ledger and the budget record it. */
    method Fire(cx: int, cy: int)
      requires Sized() && Distinct(ships) && Ledger(previousShells, shots) && shots > 0
      requires OnBoard((cx, cy)) && (cx, cy) !in previousShells
      requires Holds(ships, ShootCells(ships, Zero(ships), previousShells))
      requires forall y, x :: 0 <= y < BoardHeight && 0 <= x < BoardWidth ==>
                 tiles[y, x] == PlayTile(ships, previousShells, (x, y))
      modifies this, tiles, ships
      ensures ships == old(ships) && running == old(running)
      ensures previousShells == old(previousShells) + [(cx, cy)] && shots == old(shots) - 1
      ensures Ledger(previousShells, shots)
      ensures Holds(ships, ShootCells(ships, Zero(ships), previousShells))
      ensures forall y, x :: 0 <= y < BoardHeight && 0 <= x < BoardWidth ==>
                tiles[y, x] == PlayTile(ships, previousShells, (x, y))
    {
      ghost var shells := previousShells;
      label Aiming:
      previousShells := previousShells + [(cx, cy)];
      shots := shots - 1;
      assert Holds(ships, ShootCells(ships, Zero(ships), shells)) by {
        assert forall i :: 0 <= i < |ships| ==> ships[i].sections == old@Aiming(ships[i].sections);
      }
      Strike(cx, cy, ShootCells(ships, Zero(ships), shells), shells);
      ShootCellsSnoc(ships, Zero(ships), shells, (cx, cy));
    }

    /** Show asset `a` on cell (x, y); no other tile and no ship changes. */
    method Paint(x: int, y: int, a: string)
      requires Sized() && OnBoard((x, y))
      modifies tiles
      ensures unchanged(this) && unchanged(ships)
      ensures forall cy, cx :: 0 <= cy < BoardHeight && 0 <= cx < BoardWidth ==>
                tiles[cy, cx] == if (cx, cy) == (x, y) then a else old(tiles[cy, cx])
    {
      tiles[y, x] := a;
    }

    /** The shot itself: resolve the shell through the fleet and show hit
        or miss on its cell, so the board shows the ledger `shells` with the
        new shell added. */
    method Strike(cx: int, cy: int, ghost d: seq<seq<bool>>, ghost shells: seq<Cell>)
      requires Sized() && Distinct(ships) && Holds(ships, d) && OnBoard((cx, cy))
      requires forall y, x :: 0 <= y < BoardHeight && 0 <= x < BoardWidth ==>
                 tiles[y, x] == PlayTile(ships, shells, (x, y))
      modifies tiles, ships
      ensures Holds(ships, Shoot(ships, d, (cx, cy)))
      ensures forall y, x :: 0 <= y < BoardHeight && 0 <= x < BoardWidth ==>
                tiles[y, x] == PlayTile(ships, shells + [(cx, cy)], (x, y))
    {
      var collision := FullCollideShell(cx, cy, d);
      var asset := if collision.CollidesWith? then "hit" else "miss";
      label Painting:
      Paint(cx, cy, asset);
      forall y, x | 0 <= y < BoardHeight && 0 <= x < BoardWidth
        ensures tiles[y, x] == PlayTile(ships, shells + [(cx, cy)], (x, y))
      {
        if (x, y) != (cx, cy) {
          assert tiles[y, x] == old@Painting(tiles[y, x]);
          assert (x, y) in shells + [(cx, cy)] <==> (x, y) in shells;
        }
      }
    }

    /** One cell of the reveal's board pass: resolve a shell there and show
        the un-hit asset of the ship it lands on, or water. The cell joins
        the scanned ones, which all show their un-hit tile. */
    method RevealCell(x: int, y: int, ghost start: seq<seq<bool>>)
      requires Sized() && Distinct(ships) && OnBoard((x, y)) && Shaped(ships, start)
      requires Holds(ships, Scanned(ships, start, x, y))
      requires forall cy, cx :: ScannedBefore((cx, cy), x, y) ==> tiles[cy, cx] == UnshotTile(ships, (cx, cy))
      modifies tiles, ships
      ensures Holds(ships, Scanned(ships, start, x + 1, y))
      ensures forall cy, cx :: ScannedBefore((cx, cy), x + 1, y) ==> tiles[cy, cx] == UnshotTile(ships, (cx, cy))
      ensures forall cy, cx :: 0 <= cy < BoardHeight && 0 <= cx < BoardWidth && !ScannedBefore((cx, cy), x + 1, y) ==>
                tiles[cy, cx] == old(tiles[cy, cx])
    {
      var collision := FullCollideShell(x, y, Scanned(ships, start, x, y));
      var asset := if collision.CollidesWith? then ships[collision.ship].GetAsset(x, y, false) else "water";
      assert asset == UnshotTile(ships, (x, y));
      label Painting:
      Paint(x, y, asset);
      forall cy, cx | ScannedBefore((cx, cy), x + 1, y) ensures tiles[cy, cx] == UnshotTile(ships, (cx, cy)) {
        if (cx, cy) != (x, y) {
          assert ScannedBefore((cx, cy), x, y);
          assert tiles[cy, cx] == old@Painting(tiles[cy, cx]);
        }
      }
      ScanStep(ships, start, x, y);
    }

    /** One shell of the reveal's ledger pass: resolve it again and show the
        hit asset of the ship it lands on, or miss, so the board shows the
        reveal of the shells `done` with this one added. */
    method RevealShell(x: int, y: int, ghost start: seq<seq<bool>>, ghost done: seq<Cell>)
      requires Sized() && Distinct(ships) && OnBoard((x, y)) && Shaped(ships, start)
      requires Holds(ships, ShootCells(ships, start, done))
      requires forall cy, cx :: 0 <= cy < BoardHeight && 0 <= cx < BoardWidth ==>
                 tiles[cy, cx] == RevealedTile(ships, done, (cx, cy))
      modifies tiles, ships
      ensures Holds(ships, ShootCells(ships, start, done + [(x, y)]))
      ensures forall cy, cx :: 0 <= cy < BoardHeight && 0 <= cx < BoardWidth ==>
                tiles[cy, cx] == RevealedTile(ships, done + [(x, y)], (cx, cy))
    {
      var collision := FullCollideShell(x, y, ShootCells(ships, start, done));
      var asset := if collision.CollidesWith? then ships[collision.ship].GetAsset(x, y, true) else "miss";
      assert asset == ShotTile(ships, (x, y));
      label Painting:
      Paint(x, y, asset);
      forall cy, cx | 0 <= cy < BoardHeight && 0 <= cx < BoardWidth
        ensures tiles[cy, cx] == RevealedTile(ships, done + [(x, y)], (cx, cy))
      {
        if (cx, cy) != (x, y) {
          assert tiles[cy, cx] == old@Painting(tiles[cy, cx]);
          assert (cx, cy) in done + [(x, y)] <==> (cx, cy) in done;
        }
      }
      ShootCellsSnoc(ships, start, done, (x, y));
    }

    /** One row of the reveal's board pass. */
    method RevealRow(y: int, ghost start: seq<seq<bool>>)
      requires Sized() && Distinct(ships) && 0 <= y < BoardHeight && Shaped(ships, start)
      requires Holds(ships, Scanned(ships, start, 0, y))
      requires forall cy, cx :: ScannedBefore((cx, cy), 0, y) ==> tiles[cy, cx] == UnshotTile(ships, (cx, cy))
      modifies tiles, ships
      ensures Holds(ships, Scanned(ships, start, 0, y + 1))
      ensures forall cy, cx :: ScannedBefore((cx, cy), 0, y + 1) ==> tiles[cy, cx] == UnshotTile(ships, (cx, cy))
      ensures forall cy, cx :: 0 <= cy < BoardHeight && 0 <= cx < BoardWidth && !ScannedBefore((cx, cy), 0, y + 1) ==>
                tiles[cy, cx] == old(tiles[cy, cx])
    {
      var x := 0;
      while x < BoardWidth
        invariant 0 <= x <= BoardWidth
        invariant Holds(ships, Scanned(ships, start, x, y))
        invariant forall cy, cx :: ScannedBefore((cx, cy), x, y) ==> tiles[cy, cx] == UnshotTile(ships, (cx, cy))
        invariant forall cy, cx :: 0 <= cy < BoardHeight && 0 <= cx < BoardWidth && !ScannedBefore((cx, cy), x, y) ==>
                    tiles[cy, cx] == old(tiles[cy, cx])
      {
        RevealCell(x, y, start);
        x := x + 1;
      }
      ScanNextRow(ships, start, y);
    }

    /** The reveal's board pass over a fleet holding damage `start`: every
        cell shows its ship's un-hit asset or water, and a shell resolved on
        every cell records a hit on the first ship there. */
    method RevealBoard(ghost start: seq<seq<bool>>)
      requires Sized() && Distinct(ships) && Holds(ships, start)
      modifies tiles, ships
      ensures Holds(ships, Swept(ships, start))
      ensures forall cy, cx :: 0 <= cy < BoardHeight && 0 <= cx < BoardWidth ==>
                tiles[cy, cx] == UnshotTile(ships, (cx, cy))
    {
      ScanStart(ships, start);
      var y := 0;
      while y < BoardHeight
        invariant 0 <= y <= BoardHeight
        invariant Holds(ships, Scanned(ships, start, 0, y))
        invariant forall cy, cx :: ScannedBefore((cx, cy), 0, y) ==> tiles[cy, cx] == UnshotTile(ships, (cx, cy))
      {
        RevealRow(y, start);
        y := y + 1;
      }
      ScanDone(ships, start);
    }

    /** The reveal's ledger pass over a fleet holding damage `start`: every
        shot cell shows the hit asset of the ship it lands on, or miss, and
        each shell is resolved once more. */
    method RevealLedger(ghost start: seq<seq<bool>>)
      requires Sized() && Distinct(ships) && Ledger(previousShells, shots) && Holds(ships, start)
      requires forall cy, cx :: 0 <= cy < BoardHeight && 0 <= cx < BoardWidth ==>
                 tiles[cy, cx] == UnshotTile(ships, (cx, cy))
      modifies tiles, ships
      ensures unchanged(this)
      ensures Holds(ships, ShootCells(ships, start, previousShells))
      ensures forall cy, cx :: 0 <= cy < BoardHeight && 0 <= cx < BoardWidth ==>
                tiles[cy, cx] == RevealedTile(ships, previousShells, (cx, cy))
    {
      ghost var done: seq<Cell> := [];
      var i := 0;
      while i < |previousShells|
        invariant 0 <= i <= |previousShells|
        invariant unchanged(this)
        invariant Shaped(ships, start)
        invariant done == previousShells[..i]
        invariant Holds(ships, ShootCells(ships, start, done))
        invariant forall cy, cx :: 0 <= cy < BoardHeight && 0 <= cx < BoardWidth ==>
                    tiles[cy, cx] == RevealedTile(ships, done, (cx, cy))
      {
        var (x, y) := previousShells[i];
        RevealShell(x, y, start, done);
        assert previousShells[..i + 1] == done + [(x, y)];
        done := done + [(x, y)];
        i := i + 1;
      }
      assert previousShells[..i] == previousShells;
    }

    /** The end-of-game reveal over a fleet holding damage `d`: every board
        cell shows its ship's un-hit asset or water, then every shot cell
        shows its hit asset or miss. Both passes resolve shells through the
        fleet, so they record hits. `gameEnd` also takes the result of the
        game, which only selects the win or lose message, and the message is
        not part of this model. */
    method GameEnd(ghost d: seq<seq<bool>>)
      requires Sized() && Distinct(ships) && Ledger(previousShells, shots) && Holds(ships, d)
      modifies tiles, ships
      ensures Holds(ships, ShootCells(ships, Swept(ships, d), previousShells))
      ensures forall cy, cx :: 0 <= cy < BoardHeight && 0 <= cx < BoardWidth ==>
                tiles[cy, cx] == RevealedTile(ships, previousShells, (cx, cy))
    {
      RevealBoard(d);
      RevealLedger(Swept(ships, d));
    }
  }

  /** The generator's range keeps every section of a placed ship on the board. */
  lemma PlacedShipOnBoard(s: Ship)
    requires Placeable(s.x, s.y, s.length)
    ensures forall k :: 0 <= k < s.length ==> OnBoard(s.CellAt(k))
  {
  }

  /** When no two placed ships share a cell, the end-of-game sweep marks
      every section of every ship as hit, whatever was shot before. */
  lemma {:induction false} RevealSinksDisjointFleet(ships: seq<Ship>, cells: seq<Cell>)
    requires Placement(ships) && Disjoint(ships)
    requires forall c :: c in cells ==> OnBoard(c)
    ensures AllSunk(Swept(ships, ShootCells(ships, Zero(ships), cells)))
  {
    forall i | 0 <= i < |ships|
      ensures forall k :: 0 <= k < ships[i].length ==> OnBoard(ships[i].CellAt(k))
    {
      PlacedShipOnBoard(ships[i]);
    }
    SweepSinksDisjointFleet(ships);
    SweptForgets(ships, Zero(ships), cells);
  }

  /** The placement check lets ships overlap: an existing 3-long horizontal
      ship sizes a 7-long vertical newcomer with its own length 3, so it does
      not see the newcomer cross its middle cell (6, 5). The first ship then
      takes every shell on (6, 5), section 5 of the second ship is never hit,
      and no sequence of shells sinks the fleet. */
  lemma {:induction false} OverlapMakesFleetUnsinkable(a: Ship, b: Ship, cells: seq<Cell>)
    requires a.x == 5 && a.y == 5 && a.length == 3 && !a.vertical
    requires b.x == 6 && b.y == 0 && b.length == 7 && b.vertical
    ensures Placement([a, b])
    ensures a.Occupies(6, 5) && b.Occupies(6, 5)
    ensures !AllSunk(ShootCells([a, b], Zero([a, b]), cells))
  {
    ShootCellsAt([a, b], Zero([a, b]), cells, 1, 5);
  }

  /** Three shells along a 3-long horizontal ship sink it. */
  lemma ThreeShellsSinkShip(s: Ship)
    requires s.x == 0 && s.y == 0 && s.length == 3 && !s.vertical
    ensures AllSunk(ShootCells([s], Zero([s]), [(0, 0), (1, 0), (2, 0)]))
  {
    var cells: seq<Cell> := [(0, 0), (1, 0), (2, 0)];
    forall k | 0 <= k < 3
      ensures ShootCells([s], Zero([s]), cells)[0][k]
    {
      ShootCellsAt([s], Zero([s]), cells, 0, k);
      assert s.CellAt(k) == cells[k];
    }
  }

  /** A fleet with no ships is sunk, so the win check accepts the first shot. */
  lemma EmptyFleetIsSunk(ships: seq<Ship>, cells: seq<Cell>)
    requires ships == []
    ensures AllSunk(ShootCells(ships, Zero(ships), cells))
  {
  }
}
