/** One vessel: a fixed origin, length and orientation, and one "hit" flag
    per section that shots set in place. */
module Ships {
  import opened Board

  /** The three kinds of ship tile: the first section, an interior section
      and the last section. */
  datatype Part = Front | Middle | Back

  /** The asset shown for one section, as a lookup table keyed by
      orientation, part and whether the section was shot. */
  function ShipAsset(vertical: bool, part: Part, hit: bool): string {
    match (vertical, part, hit)
    case (true, Front, false) => "ship_up"
    case (true, Front, true) => "ship_up_hit"
    case (true, Middle, false) => "ship_vertical"
    case (true, Middle, true) => "ship_vertical_hit"
    case (true, Back, false) => "ship_down"
    case (true, Back, true) => "ship_down_hit"
    case (false, Front, false) => "ship_left"
    case (false, Front, true) => "ship_left_hit"
    case (false, Middle, false) => "ship_horizontal"
    case (false, Middle, true) => "ship_horizontal_hit"
    case (false, Back, false) => "ship_right"
    case (false, Back, true) => "ship_right_hit"
  }

  /** The box test of `collides` on plain values: the first box is the
      ship at (x, y) of length `length`; the second box, at (ox, oy), is
      sized with the same `length`. Edges that touch count. */
  function BoxCollides(x: int, y: int, length: int, vertical: bool, ox: int, oy: int, overtical: bool): bool {
    var aWidth := if vertical then 1 else length;
    var aHeight := if vertical then length else 1;
    var bWidth := if overtical then 1 else length;
    var bHeight := if overtical then length else 1;
    !(y + aHeight < oy ||
      y > oy + bHeight ||
      x + aWidth < ox ||
      x > ox + bWidth)
  }

  /** Two cells are near when they are equal or one of the eight neighbours
      of the other. */
  predicate Near(px: int, py: int, qx: int, qy: int) {
    -1 <= px - qx <= 1 && -1 <= py - qy <= 1
  }

  class Ship {
    const x: int
    const y: int
    const length: nat
    const vertical: bool
    var sections: seq<bool>

    /** One section flag per unit of length. */
    ghost predicate Valid()
      reads this
    {
      |sections| == length
    }

    constructor (x: int, y: int, length: nat, vertical: bool)
      ensures this.x == x && this.y == y && this.length == length && this.vertical == vertical
      ensures Valid()
      ensures forall k :: 0 <= k < length ==> !sections[k]
    {
      this.x := x;
      this.y := y;
      this.length := length;
      this.vertical := vertical;
      sections := [];
      new;
      var i := 0;
      while i < length
        invariant 0 <= i <= length
        invariant |sections| == i
        invariant forall k :: 0 <= k < i ==> !sections[k]
      {
        sections := sections + [false];
        i := i + 1;
      }
    }

    /** The cells a run of `len` cells from the origin along the ship's axis covers. */
    predicate Spans(cx: int, cy: int, len: int) {
      if vertical then cx == x && y <= cy < y + len
      else cy == y && x <= cx < x + len
    }

    /** The cells the ship itself covers. */
    predicate Occupies(cx: int, cy: int) {
      Spans(cx, cy, length)
    }

    /** The section index a cell on the ship's axis corresponds to. */
    function Offset(cx: int, cy: int): int {
      if vertical then cy - y else cx - x
    }

    /** The cell of section k. */
    function CellAt(k: int): (c: Cell)
      ensures 0 <= k < length ==> Occupies(c.0, c.1) && Offset(c.0, c.1) == k
    {
      if vertical then (x, y + k) else (x + k, y)
    }

    /** The section flags after a shell lands on (cx, cy): the section under
        the shell is set and every other flag keeps its value. */
    function Struck(s: seq<bool>, cx: int, cy: int): (r: seq<bool>)
      requires |s| == length
      ensures |r| == length
      ensures forall k :: 0 <= k < length ==>
                r[k] == (s[k] || (Occupies(cx, cy) && CellAt(k) == (cx, cy)))
    {
      if Occupies(cx, cy) then s[Offset(cx, cy) := true] else s
    }

    /** Resolve a shell on (cx, cy) against this ship: report whether the
        cell is on its span, and on a hit set the flag of that section. */
    method Hits(cx: int, cy: int) returns (hit: bool)
      requires Valid()
      modifies this
      ensures Valid()
      ensures hit <==> Occupies(cx, cy)
      ensures sections == Struck(old(sections), cx, cy)
    {
      hit := false;
      var index := 0;
      if vertical {
        if x != cx { return false; }
        if cy >= y && cy < y + length {
          hit := true;
          index := cy - y;
        }
      }
      if !vertical {
        if y != cy { return false; }
        if cx >= x && cx < x + length {
          hit := true;
          index := cx - x;
        }
      }
      if hit { sections := sections[index := true]; }
    }

    /** Footprint overlap with touching edges counted as overlap. The other
        ship's footprint is sized with THIS ship's length. */
    function Collides(other: Ship): bool {
      BoxCollides(x, y, length, vertical, other.x, other.y, other.vertical)
    }

    predicate IsDestroyed()
      reads this
    {
      forall k :: 0 <= k < |sections| ==> sections[k]
    }

    /** The flag fold: true exactly when every section is set. */
    method Destroyed() returns (destroyed: bool)
      ensures destroyed <==> forall k :: 0 <= k < |sections| ==> sections[k]
    {
      destroyed := true;
      for i := 0 to |sections|
        invariant destroyed <==> forall k :: 0 <= k < i ==> sections[k]
      {
        if sections[i] == false { destroyed := false; }
      }
    }

    /** The tile for a cell of this ship. */
    function GetAsset(cx: int, cy: int, hit: bool): string {
      var index := (if vertical then cy else cx) - (if vertical then y else x);
      if index > 0 && index < length - 1 then
        "ship_" + (if vertical then "vertical" else "horizontal") + HitSuffix(hit)
      else if index == 0 then
        "ship_" + (if vertical then "up" else "left") + HitSuffix(hit)
      else
        "ship_" + (if vertical then "down" else "right") + HitSuffix(hit)
    }
  }

  /** A ship asset name, as opposed to "water", "hit" or "miss". */
  predicate IsShipTile(a: string) {
    |a| >= 5 && a[..5] == "ship_"
  }

  /** Every entry of the table is a loaded ship asset, with the hit variant
      exactly when `hit` holds. */
  lemma ShipAssetNames(vertical: bool, part: Part, hit: bool)
    ensures ShipAsset(vertical, part, hit) in Assets
    ensures IsShipTile(ShipAsset(vertical, part, hit))
    ensures HasHitSuffix(ShipAsset(vertical, part, hit)) <==> hit
  {
  }

  /** `getAsset` picks the table entry for the section's part: the first
      section is an end cap (up or left), an interior one a straight piece,
      the last one the other end cap (down or right); a cell off the span
      falls through to the last branch. The name is a loaded ship asset and
      carries the hit suffix exactly when `hit` holds. */
  lemma GetAssetIsTableEntry(s: Ship, cx: int, cy: int, hit: bool)
    ensures s.GetAsset(cx, cy, hit) in Assets
    ensures IsShipTile(s.GetAsset(cx, cy, hit))
    ensures HasHitSuffix(s.GetAsset(cx, cy, hit)) <==> hit
    ensures s.Offset(cx, cy) == 0 ==> s.GetAsset(cx, cy, hit) == ShipAsset(s.vertical, Front, hit)
    ensures 0 < s.Offset(cx, cy) < s.length - 1 ==> s.GetAsset(cx, cy, hit) == ShipAsset(s.vertical, Middle, hit)
    ensures 0 < s.Offset(cx, cy) == s.length - 1 ==> s.GetAsset(cx, cy, hit) == ShipAsset(s.vertical, Back, hit)
    ensures s.Offset(cx, cy) < 0 || (s.Offset(cx, cy) >= s.length && s.Offset(cx, cy) != 0) ==>
              s.GetAsset(cx, cy, hit) == ShipAsset(s.vertical, Back, hit)
  {
    var index := s.Offset(cx, cy);
    var a := s.GetAsset(cx, cy, hit);
    if index > 0 && index < s.length - 1 {
      assert a == "ship_" + (if s.vertical then "vertical" else "horizontal") + HitSuffix(hit);
      assert a == ShipAsset(s.vertical, Middle, hit);
      ShipAssetNames(s.vertical, Middle, hit);
    } else if index == 0 {
      assert a == "ship_" + (if s.vertical then "up" else "left") + HitSuffix(hit);
      assert a == ShipAsset(s.vertical, Front, hit);
      ShipAssetNames(s.vertical, Front, hit);
    } else {
      assert a == "ship_" + (if s.vertical then "down" else "right") + HitSuffix(hit);
      assert a == ShipAsset(s.vertical, Back, hit);
      ShipAssetNames(s.vertical, Back, hit);
    }
  }

  function Clamp(v: int, lo: int, hi: int): int {
    if v < lo then lo else if v > hi then hi else v
  }

  /** For a ship of positive length, `collides` holds exactly when some cell
      of `a` is near some cell of `b`'s footprint, that footprint being
      `a.length` cells long. */
  lemma CollidesIffNear(a: Ship, b: Ship)
    requires a.length > 0
    ensures a.Collides(b) <==>
              exists px, py, qx, qy :: a.Spans(px, py, a.length) && b.Spans(qx, qy, a.length) && Near(px, py, qx, qy)
  {
    if a.Collides(b) {
      var aw := if a.vertical then 1 else a.length;
      var ah := if a.vertical then a.length else 1;
      var bw := if b.vertical then 1 else a.length;
      var bh := if b.vertical then a.length else 1;
      var px := Clamp(b.x, a.x, a.x + aw - 1);
      var py := Clamp(b.y, a.y, a.y + ah - 1);
      var qx := Clamp(px, b.x, b.x + bw - 1);
      var qy := Clamp(py, b.y, b.y + bh - 1);
      assert a.Spans(px, py, a.length) && b.Spans(qx, qy, a.length) && Near(px, py, qx, qy);
    }
  }

  /** Touching counts in one direction: a horizontal ship collides with one
      that starts right after its last cell. The later ship, sizing the
      earlier one with its own length, reaches back only when it is at
      least as long. */
  lemma {:induction false} TouchingShipsCollide(a: Ship, b: Ship)
    requires a.length > 0 && !a.vertical && !b.vertical
    requires b.y == a.y && b.x == a.x + a.length
    ensures a.Collides(b)
    ensures b.Collides(a) <==> a.length <= b.length
    ensures forall px, py, qx, qy :: a.Occupies(px, py) && b.Occupies(qx, qy) ==> (px, py) != (qx, qy)
  {
  }

  /** The predicate is not symmetric: a long ship reaches a short one that
      starts right after it, but the short one, sizing the long one with its
      own length, does not reach back. */
  lemma CollidesNotSymmetric(a: Ship, b: Ship)
    requires a.x == 0 && a.y == 0 && a.length == 7 && !a.vertical
    requires b.x == 7 && b.y == 0 && b.length == 3 && !b.vertical
    ensures a.Collides(b) && !b.Collides(a)
  {
  }

  /** Applying the same shell twice leaves the flags as one application does. */
  lemma StruckIdempotent(s: Ship, sec: seq<bool>, cx: int, cy: int)
    requires |sec| == s.length
    ensures s.Struck(s.Struck(sec, cx, cy), cx, cy) == s.Struck(sec, cx, cy)
  {
  }
}
