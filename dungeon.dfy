/**
 * Value types of the dungeon engine (rpg/game/game.go): positions, glyphs,
 * tiles, characters, and the pure tile predicates `inRange`, `canWalk`,
 * `canSeeThrough` and `getNeighbors`.
 */
module Dungeon {

  datatype Pos = Pos(x: int, y: int)

  /** The runes a tile's base or overlay can hold; `Blank` is rune 0, `Pending` is rune -1. */
  datatype Glyph = Blank | StoneWall | DirtFloor | ClosedDoor | OpenDoor | UpStair | DownStair | Pending

  datatype Tile = Tile(glyph: Glyph, overlay: Glyph, visible: bool, seen: bool)

  /** Go's zero `Tile{}`: blank base, blank overlay, neither visible nor seen. */
  const BlankTile := Tile(Blank, Blank, false, false)

  /** `Level.Map`: rows indexed by Y, each row indexed by X. */
  type Grid = seq<seq<Tile>>

  /** The shared shape of the player and of every monster. */
  datatype Character = Character(
    pos: Pos, name: string, rune: char,
    hp: int, strength: int, speed: real, ap: real, sightRange: int)

  datatype GameEvent = MoveEvent | DoorOpen | AttackEvent | Hit | PortalEvent

  /** A grid has at least one row (so `Map[0]` exists) and all rows are as long as the first. */
  predicate WellFormed(g: Grid)
  {
    |g| > 0 && forall y :: 0 <= y < |g| ==> |g[y]| == |g[0]|
  }

  /** Monster map invariant: every key is its monster's position, and no dead monster stays. */
  predicate MonstersConsistent(monsters: map<Pos, Character>)
  {
    forall p :: p in monsters ==> monsters[p].pos == p && monsters[p].hp > 0
  }

  /** `inRange`: within the width of the first row and the number of rows; in a well-formed grid, the tile can be indexed. */
  predicate InRange(g: Grid, p: Pos)
    requires |g| > 0
    ensures InRange(g, p) && WellFormed(g) ==> 0 <= p.y < |g| && 0 <= p.x < |g[p.y]|
  {
    p.x < |g[0]| && p.y < |g| && p.x >= 0 && p.y >= 0
  }

  function TileAt(g: Grid, p: Pos): Tile
    requires WellFormed(g) && InRange(g, p)
  {
    g[p.y][p.x]
  }

  /** `canWalk`: a walkable tile is on the map, neither wall nor blank, no closed door, and holds no monster. */
  predicate CanWalk(g: Grid, monsters: map<Pos, Character>, p: Pos)
    requires WellFormed(g)
  {
    if InRange(g, p) then
      var t := TileAt(g, p);
      if t.glyph == StoneWall || t.glyph == Blank then false
      else if t.overlay == ClosedDoor then false
      else p !in monsters
    else false
  }

  /** `canSeeThrough`: a transparent tile is on the map, neither wall nor blank, and no closed door. */
  predicate CanSeeThrough(g: Grid, p: Pos)
    requires WellFormed(g)
    ensures CanSeeThrough(g, p) ==> InRange(g, p) && TileAt(g, p).glyph != StoneWall && TileAt(g, p).glyph != Blank
  {
    if InRange(g, p) then
      var t := TileAt(g, p);
      if t.glyph == StoneWall || t.glyph == Blank then false
      else t.overlay != ClosedDoor
    else false
  }

  /** Out of range, nothing is walkable and nothing is transparent. */
  lemma OutOfRangeBlocks(g: Grid, monsters: map<Pos, Character>, p: Pos)
    requires WellFormed(g) && !InRange(g, p)
    ensures !CanWalk(g, monsters, p) && !CanSeeThrough(g, p)
  {
  }

  /**
   * `canWalk` is `canSeeThrough` plus "no monster there": so every walkable
   * tile is transparent, and transparency does not depend on the monsters.
   */
  lemma WalkIsSightWithoutMonster(g: Grid, monsters: map<Pos, Character>, p: Pos)
    requires WellFormed(g)
    ensures CanWalk(g, monsters, p) <==> CanSeeThrough(g, p) && p !in monsters
    ensures CanWalk(g, monsters, p) ==> CanSeeThrough(g, p)
    ensures CanSeeThrough(g, p) == CanWalk(g, map[], p)
  {
  }

  /** Two grids agree on terrain: same shape, same base and overlay glyph everywhere. */
  predicate SameTerrain(g: Grid, h: Grid)
  {
    |g| == |h| &&
    (forall y :: 0 <= y < |g| ==> |g[y]| == |h[y]|) &&
    (forall y, x :: 0 <= y < |g| && 0 <= x < |g[y]| ==>
      g[y][x].glyph == h[y][x].glyph && g[y][x].overlay == h[y][x].overlay)
  }

  /** Visibility flags never decide transparency: grids with the same terrain agree on it. */
  lemma SameTerrainSameSight(g: Grid, h: Grid, p: Pos)
    requires WellFormed(g) && SameTerrain(g, h)
    ensures WellFormed(h)
    ensures CanSeeThrough(g, p) == CanSeeThrough(h, p)
  {
    assert |h[0]| == |g[0]|;
    if InRange(g, p) {
      assert h[p.y][p.x].glyph == g[p.y][p.x].glyph;
    }
  }

  /** `Seen` never goes back from true to false between two grids of the same shape. */
  predicate SeenKept(g: Grid, h: Grid)
  {
    |g| == |h| &&
    (forall y :: 0 <= y < |g| ==> |g[y]| == |h[y]|) &&
    (forall y, x :: 0 <= y < |g| && 0 <= x < |g[y]| && g[y][x].seen ==> h[y][x].seen)
  }

  predicate Adjacent(p: Pos, q: Pos)
  {
    (p.x == q.x && (p.y - q.y == 1 || q.y - p.y == 1)) ||
    (p.y == q.y && (p.x - q.x == 1 || q.x - p.x == 1))
  }

  /** `getNeighbors`: the walkable 4-neighbours, in the order right, left, up, down. */
  function Neighbors(g: Grid, monsters: map<Pos, Character>, p: Pos): (ns: seq<Pos>)
    requires WellFormed(g)
    ensures |ns| <= 4
    ensures forall q :: q in ns <==> Adjacent(p, q) && CanWalk(g, monsters, q)
  {
    var right := Pos(p.x + 1, p.y);
    var left := Pos(p.x - 1, p.y);
    var up := Pos(p.x, p.y - 1);
    var down := Pos(p.x, p.y + 1);
    assert forall q :: Adjacent(p, q) <==> q == right || q == left || q == up || q == down;
    (if CanWalk(g, monsters, right) then [right] else []) +
    (if CanWalk(g, monsters, left) then [left] else []) +
    (if CanWalk(g, monsters, up) then [up] else []) +
    (if CanWalk(g, monsters, down) then [down] else [])
  }

  /** Every neighbour is on the map. */
  lemma NeighborInRange(g: Grid, monsters: map<Pos, Character>, p: Pos, i: nat)
    requires WellFormed(g) && i < |Neighbors(g, monsters, p)|
    ensures InRange(g, Neighbors(g, monsters, p)[i])
  {
    var q := Neighbors(g, monsters, p)[i];
    assert q in Neighbors(g, monsters, p);
    if !InRange(g, q) {
      OutOfRangeBlocks(g, monsters, q);
    }
  }

  /** Every in-range position of a grid of width `w` and height `h`, row by row. */
  function Cells(w: nat, h: nat): (cs: seq<Pos>)
    ensures forall p :: p in cs <==> 0 <= p.x < w && 0 <= p.y < h
  {
    if h == 0 then []
    else
      var row := seq(w, i => Pos(i, h - 1));
      assert forall p :: p in row <==> 0 <= p.x < w && p.y == h - 1 by {
        forall p: Pos | 0 <= p.x < w && p.y == h - 1 ensures p in row {
          assert row[p.x] == p;
        }
      }
      Cells(w, h - 1) + row
  }
}
