/** Specification functions over the fleet: which ship a shell lands on,
    what a sequence of shells does to the section flags, and what the
    end-of-game sweep of the whole board does to them. A fleet's damage is
    written as one sequence of section flags per ship. */
module Fleet {
  import opened Board
  import opened Ships

  /** The result of a search over the fleet: no ship, or the index of one. */
  datatype Collision = NoCollision | CollidesWith(ship: nat)

  /** No ship is listed twice. */
  predicate Distinct(ships: seq<Ship>) {
    forall i, j :: 0 <= i < j < |ships| ==> ships[i] != ships[j]
  }

  /** The section flags of every ship, in placement order. */
  function DamageOf(ships: seq<Ship>): (d: seq<seq<bool>>)
    reads ships
    ensures |d| == |ships|
    ensures forall i :: 0 <= i < |ships| ==> d[i] == ships[i].sections
  {
    seq(|ships|, i requires 0 <= i < |ships| reads ships => ships[i].sections)
  }

  /** The ships carry exactly the flags `d`, one per section. */
  ghost predicate Holds(ships: seq<Ship>, d: seq<seq<bool>>)
    reads ships
  {
    Shaped(ships, d) &&
    (forall i :: 0 <= i < |ships| ==> ships[i].Valid()) &&
    forall i, k :: 0 <= i < |ships| && 0 <= k < ships[i].length ==> ships[i].sections[k] == d[i][k]
  }

  /** The flags the ships carry are the damage they hold. */
  lemma HoldsDamageOf(ships: seq<Ship>, d: seq<seq<bool>>)
    requires Holds(ships, d)
    ensures DamageOf(ships) == d
  {
    var e := DamageOf(ships);
    forall i | 0 <= i < |ships|
      ensures e[i] == d[i]
    {
      assert |e[i]| == |d[i]|;
    }
  }

  /** `d` gives every ship one flag per section. */
  predicate Shaped(ships: seq<Ship>, d: seq<seq<bool>>) {
    |d| == |ships| && forall i :: 0 <= i < |ships| ==> |d[i]| == ships[i].length
  }

  /** The damage of a fleet no shell has touched. */
  function Zero(ships: seq<Ship>): (d: seq<seq<bool>>)
    ensures Shaped(ships, d)
    ensures forall i, k :: 0 <= i < |ships| && 0 <= k < ships[i].length ==> !d[i][k]
  {
    seq(|ships|, i requires 0 <= i < |ships| => seq(ships[i].length, _ => false))
  }

  /** Every section of every ship is hit. */
  predicate AllSunk(d: seq<seq<bool>>) {
    forall i, k :: 0 <= i < |d| && 0 <= k < |d[i]| ==> d[i][k]
  }

  /** The first ship, in placement order, whose span holds cell c. */
  function FirstOccupant(ships: seq<Ship>, c: Cell): (r: Collision)
    ensures r.CollidesWith? ==>
              r.ship < |ships| && ships[r.ship].Occupies(c.0, c.1) &&
              forall j :: 0 <= j < r.ship ==> !ships[j].Occupies(c.0, c.1)
    ensures r == NoCollision <==> forall j :: 0 <= j < |ships| ==> !ships[j].Occupies(c.0, c.1)
  {
    if ships == [] then NoCollision
    else match FirstOccupant(ships[..|ships| - 1], c)
      case CollidesWith(i) => CollidesWith(i)
      case NoCollision =>
        if ships[|ships| - 1].Occupies(c.0, c.1) then CollidesWith(|ships| - 1) else NoCollision
  }

  /** The damage after one shell on c: the section under c of the first ship
      there becomes hit, and nothing else changes. */
  function Shoot(ships: seq<Ship>, d: seq<seq<bool>>, c: Cell): (r: seq<seq<bool>>)
    requires Shaped(ships, d)
    ensures Shaped(ships, r)
    ensures forall i, k :: 0 <= i < |ships| && 0 <= k < ships[i].length ==>
              r[i][k] == (d[i][k] || (FirstOccupant(ships, c) == CollidesWith(i) && ships[i].CellAt(k) == c))
  {
    match FirstOccupant(ships, c)
    case NoCollision => d
    case CollidesWith(i) => d[i := ships[i].Struck(d[i], c.0, c.1)]
  }

  /** The damage after the shells `cells`, in order. */
  function ShootCells(ships: seq<Ship>, d: seq<seq<bool>>, cells: seq<Cell>): (r: seq<seq<bool>>)
    requires Shaped(ships, d)
    ensures Shaped(ships, r)
    decreases |cells|
  {
    if cells == [] then d
    else Shoot(ships, ShootCells(ships, d, cells[..|cells| - 1]), cells[|cells| - 1])
  }

  /** One more shell after a sequence is one more application of Shoot. */
  lemma ShootCellsSnoc(ships: seq<Ship>, d: seq<seq<bool>>, cells: seq<Cell>, c: Cell)
    requires Shaped(ships, d)
    ensures ShootCells(ships, d, cells + [c]) == Shoot(ships, ShootCells(ships, d, cells), c)
  {
    assert (cells + [c])[..|cells|] == cells;
  }

  /** Section k of ship i is on the board and no earlier ship covers its
      cell, so a shell there lands on this ship. */
  predicate OwnsCell(ships: seq<Ship>, i: nat, k: int)
    requires i < |ships|
  {
    OnBoard(ships[i].CellAt(k)) && FirstOccupant(ships, ships[i].CellAt(k)) == CollidesWith(i)
  }

  /** The damage after one shell on every board cell: a section is hit when
      it already was or when its ship owns its cell. */
  function Swept(ships: seq<Ship>, d: seq<seq<bool>>): (r: seq<seq<bool>>)
    requires Shaped(ships, d)
    ensures Shaped(ships, r)
  {
    seq(|d|, i requires 0 <= i < |d| =>
      seq(|d[i]|, k requires 0 <= k < |d[i]| => d[i][k] || OwnsCell(ships, i, k)))
  }

  /** Equality of two damage values, one flag at a time. */
  lemma DamageExt(ships: seq<Ship>, d: seq<seq<bool>>, e: seq<seq<bool>>)
    requires Shaped(ships, d) && Shaped(ships, e)
    requires forall i, k :: 0 <= i < |ships| && 0 <= k < ships[i].length ==> d[i][k] == e[i][k]
    ensures d == e
  {
    forall i | 0 <= i < |ships|
      ensures d[i] == e[i]
    {
      assert |d[i]| == |e[i]|;
    }
  }

  /** After a sequence of shells, a section is hit exactly when it was hit
      before or some shell fell on its cell while its ship is the first one
      there: where the shells fell counts, not their order or repetitions. */
  lemma {:induction false} ShootCellsAt(ships: seq<Ship>, d: seq<seq<bool>>, cells: seq<Cell>, i: nat, k: nat)
    requires Shaped(ships, d) && i < |ships| && k < ships[i].length
    ensures ShootCells(ships, d, cells)[i][k] ==
              (d[i][k] || (ships[i].CellAt(k) in cells && FirstOccupant(ships, ships[i].CellAt(k)) == CollidesWith(i)))
  {
    if cells != [] {
      var front := cells[..|cells| - 1];
      ShootCellsAt(ships, d, front, i, k);
      assert cells == front + [cells[|cells| - 1]];
    }
  }

  /** Shooting the same cells again changes nothing. */
  lemma ShootCellsIdempotent(ships: seq<Ship>, d: seq<seq<bool>>, cells: seq<Cell>)
    requires Shaped(ships, d)
    ensures ShootCells(ships, ShootCells(ships, d, cells), cells) == ShootCells(ships, d, cells)
  {
    var once := ShootCells(ships, d, cells);
    forall i, k | 0 <= i < |ships| && 0 <= k < ships[i].length
      ensures ShootCells(ships, once, cells)[i][k] == once[i][k]
    {
      ShootCellsAt(ships, d, cells, i, k);
      ShootCellsAt(ships, once, cells, i, k);
    }
    DamageExt(ships, ShootCells(ships, once, cells), once);
  }

  /** A ship is destroyed after a sequence of shells on an untouched fleet
      exactly when every one of its cells was shot while it is the first
      ship on that cell. */
  lemma SunkIffEveryCellShot(ships: seq<Ship>, cells: seq<Cell>, i: nat)
    requires i < |ships|
    ensures (forall k :: 0 <= k < ships[i].length ==> ShootCells(ships, Zero(ships), cells)[i][k]) <==>
            (forall k :: 0 <= k < ships[i].length ==>
               ships[i].CellAt(k) in cells && FirstOccupant(ships, ships[i].CellAt(k)) == CollidesWith(i))
  {
    forall k | 0 <= k < ships[i].length
      ensures ShootCells(ships, Zero(ships), cells)[i][k] <==>
                ships[i].CellAt(k) in cells && FirstOccupant(ships, ships[i].CellAt(k)) == CollidesWith(i)
    {
      ShootCellsAt(ships, Zero(ships), cells, i, k);
    }
  }

  /** One shell on each board cell, in any order, yields the swept damage. */
  lemma SweepBoard(ships: seq<Ship>, d: seq<seq<bool>>, cells: seq<Cell>)
    requires Shaped(ships, d)
    requires forall c :: c in cells <==> OnBoard(c)
    ensures ShootCells(ships, d, cells) == Swept(ships, d)
  {
    forall i, k | 0 <= i < |ships| && 0 <= k < ships[i].length
      ensures ShootCells(ships, d, cells)[i][k] == Swept(ships, d)[i][k]
    {
      ShootCellsAt(ships, d, cells, i, k);
    }
    DamageExt(ships, ShootCells(ships, d, cells), Swept(ships, d));
  }

  /** Shells on board cells add nothing to a swept fleet. */
  lemma SweptAbsorbs(ships: seq<Ship>, d: seq<seq<bool>>, cells: seq<Cell>)
    requires Shaped(ships, d)
    requires forall c :: c in cells ==> OnBoard(c)
    ensures ShootCells(ships, Swept(ships, d), cells) == Swept(ships, d)
  {
    var s := Swept(ships, d);
    forall i, k | 0 <= i < |ships| && 0 <= k < ships[i].length
      ensures ShootCells(ships, s, cells)[i][k] == s[i][k]
    {
      ShootCellsAt(ships, s, cells, i, k);
    }
    DamageExt(ships, ShootCells(ships, s, cells), s);
  }

  /** Sweeping after shells on board cells gives what sweeping alone gives. */
  lemma SweptForgets(ships: seq<Ship>, d: seq<seq<bool>>, cells: seq<Cell>)
    requires Shaped(ships, d)
    requires forall c :: c in cells ==> OnBoard(c)
    ensures Swept(ships, ShootCells(ships, d, cells)) == Swept(ships, d)
  {
    var shot := ShootCells(ships, d, cells);
    forall i, k | 0 <= i < |ships| && 0 <= k < ships[i].length
      ensures Swept(ships, shot)[i][k] == Swept(ships, d)[i][k]
    {
      ShootCellsAt(ships, d, cells, i, k);
    }
    DamageExt(ships, Swept(ships, shot), Swept(ships, d));
  }

  /** Cell c is on the board and comes before (x, y) in a row-by-row scan. */
  predicate ScannedBefore(c: Cell, x: int, y: int) {
    OnBoard(c) && (c.1 < y || (c.1 == y && c.0 < x))
  }

  /** The damage after one shell on every board cell before (x, y) in a
      row-by-row scan. */
  function Scanned(ships: seq<Ship>, d: seq<seq<bool>>, x: int, y: int): (r: seq<seq<bool>>)
    requires Shaped(ships, d)
    ensures Shaped(ships, r)
  {
    seq(|d|, i requires 0 <= i < |d| =>
      seq(|d[i]|, k requires 0 <= k < |d[i]| =>
        d[i][k] || (ScannedBefore(ships[i].CellAt(k), x, y) &&
                    FirstOccupant(ships, ships[i].CellAt(k)) == CollidesWith(i))))
  }

  /** The scan has not started: nothing changed. */
  lemma ScanStart(ships: seq<Ship>, d: seq<seq<bool>>)
    requires Shaped(ships, d)
    ensures Scanned(ships, d, 0, 0) == d
  {
    DamageExt(ships, Scanned(ships, d, 0, 0), d);
  }

  /** The shell on (x, y) moves the scan one cell to the right. */
  lemma ScanStep(ships: seq<Ship>, d: seq<seq<bool>>, x: int, y: int)
    requires Shaped(ships, d) && OnBoard((x, y))
    ensures Shoot(ships, Scanned(ships, d, x, y), (x, y)) == Scanned(ships, d, x + 1, y)
  {
    DamageExt(ships, Shoot(ships, Scanned(ships, d, x, y), (x, y)), Scanned(ships, d, x + 1, y));
  }

  /** The end of a row is the start of the next one. */
  lemma ScanNextRow(ships: seq<Ship>, d: seq<seq<bool>>, y: int)
    requires Shaped(ships, d)
    ensures Scanned(ships, d, BoardWidth, y) == Scanned(ships, d, 0, y + 1)
  {
    DamageExt(ships, Scanned(ships, d, BoardWidth, y), Scanned(ships, d, 0, y + 1));
  }

  /** The whole board scanned is the sweep. */
  lemma ScanDone(ships: seq<Ship>, d: seq<seq<bool>>)
    requires Shaped(ships, d)
    ensures Scanned(ships, d, 0, BoardHeight) == Swept(ships, d)
  {
    DamageExt(ships, Scanned(ships, d, 0, BoardHeight), Swept(ships, d));
  }

  /** No ship covers a cell of another one. */
  predicate Disjoint(ships: seq<Ship>) {
    forall i, j, k :: 0 <= i < |ships| && 0 <= j < |ships| && i != j && 0 <= k < ships[i].length ==>
      !ships[j].Occupies(ships[i].CellAt(k).0, ships[i].CellAt(k).1)
  }

  /** For a fleet on the board with no shared cells, the sweep marks every
      section of every ship. */
  lemma SweepSinksDisjointFleet(ships: seq<Ship>)
    requires Disjoint(ships)
    requires forall i, k :: 0 <= i < |ships| && 0 <= k < ships[i].length ==> OnBoard(ships[i].CellAt(k))
    ensures AllSunk(Swept(ships, Zero(ships)))
  {
    var s := Swept(ships, Zero(ships));
    forall i, k | 0 <= i < |s| && 0 <= k < |s[i]|
      ensures s[i][k]
    {
      var c := ships[i].CellAt(k);
      assert ships[i].Occupies(c.0, c.1);
      assert FirstOccupant(ships, c) == CollidesWith(i);
    }
  }
}
