/**
 * Line of sight (rpg/game/game.go `lineOfSight` and `bresenham`): integer
 * Bresenham rays from the player to every tile within the sight range, each
 * ray marking tiles `Visible` and `Seen` in place until it meets an opaque tile.
 */
module Vision {
  import opened Dungeon
  import opened Levels

  function Abs(n: int): nat
  {
    if n < 0 then -n else n
  }

  function Elems(s: seq<Pos>): set<Pos>
  {
    set q | q in s
  }

  /**
   * The quantities a ray fixes before its loop starts, in the frame where the
   * major axis is X (coordinates swapped when the line is steep).
   */
  datatype RayFrame = RayFrame(steep: bool, backward: bool, endX: int, deltaX: int, deltaY: int, yStep: int)

  /** Swaps X and Y when the ray is steep. */
  function Swap(steep: bool, p: Pos): Pos
  {
    if steep then Pos(p.y, p.x) else p
  }

  function IsSteep(start: Pos, end: Pos): bool
  {
    Abs(end.y - start.y) > Abs(end.x - start.x)
  }

  function Frame(start: Pos, end: Pos): RayFrame
  {
    var steep := IsSteep(start, end);
    var s := Swap(steep, start);
    var e := Swap(steep, end);
    RayFrame(steep, s.x > e.x, e.x, Abs(e.x - s.x), Abs(e.y - s.y), if s.y >= e.y then -1 else 1)
  }

  /** Number of loop iterations left when the major coordinate is `x`. */
  function Remaining(f: RayFrame, x: int): nat
  {
    if f.backward then (if x > f.endX then x - f.endX else 0)
    else (if x < f.endX then f.endX - x else 0)
  }

  /** The tiles the loop would visit from state (x, y, err) if nothing blocked it. */
  function RayFrom(f: RayFrame, x: int, y: int, err: int): seq<Pos>
    decreases Remaining(f, x)
  {
    if Remaining(f, x) == 0 then []
    else
      var err1 := err + f.deltaY;
      var x1 := if f.backward then x - 1 else x + 1;
      [Swap(f.steep, Pos(x, y))] +
      (if 2 * err1 >= f.deltaX then RayFrom(f, x1, y + f.yStep, err1 - f.deltaX)
       else RayFrom(f, x1, y, err1))
  }

  /** The whole unblocked ray from `start` towards `end`. */
  function Ray(start: Pos, end: Pos): seq<Pos>
  {
    var f := Frame(start, end);
    var s := Swap(f.steep, start);
    RayFrom(f, s.x, s.y, 0)
  }

  /** The prefix of ray `r` that gets marked: up to and including the first opaque tile. */
  function Touched(g: Grid, r: seq<Pos>): seq<Pos>
    requires WellFormed(g)
  {
    if r == [] then []
    else if !CanSeeThrough(g, r[0]) then [r[0]]
    else [r[0]] + Touched(g, r[1..])
  }

  function Mark(t: Tile): Tile
  {
    t.(visible := true, seen := true)
  }

  /** The grid with every tile at a position of `s` marked visible and seen. */
  function Lit(g: Grid, s: set<Pos>): (h: Grid)
    ensures |h| == |g| && forall y :: 0 <= y < |g| ==> |h[y]| == |g[y]|
    ensures forall y, x :: 0 <= y < |g| && 0 <= x < |g[y]| ==>
      h[y][x] == if Pos(x, y) in s then Mark(g[y][x]) else g[y][x]
  {
    seq(|g|, y requires 0 <= y < |g| =>
      seq(|g[y]|, x requires 0 <= x < |g[y]| => if Pos(x, y) in s then Mark(g[y][x]) else g[y][x]))
  }

  /** `d <= float64(dist)` with `d = Sqrt(dx*dx + dy*dy)`, stated on integers. */
  predicate InSight(c: Pos, d: int, t: Pos)
  {
    (c.x - t.x) * (c.x - t.x) + (c.y - t.y) * (c.y - t.y) <= d * d
  }

  /** The targets `lineOfSight` casts a ray to: the square around `c`, cut to the Euclidean disk. */
  function Disk(c: Pos, d: int): set<Pos>
  {
    set x, y | c.x - d <= x <= c.x + d && c.y - d <= y <= c.y + d && InSight(c, d, Pos(x, y)) :: Pos(x, y)
  }

  /** Every tile marked by some ray from `c` to a target in `targets`. */
  function Lights(g: Grid, c: Pos, targets: set<Pos>): set<Pos>
    requires WellFormed(g)
  {
    set t, q | t in targets && q in Touched(g, Ray(c, t)) :: q
  }

  /** Every tile any ray of a sight computation from `c` marks lies on the map (the source indexes unchecked). */
  ghost predicate SightSafe(g: Grid, c: Pos, d: int)
    requires WellFormed(g)
  {
    forall q :: q in Lights(g, c, Disk(c, d)) ==> InRange(g, q)
  }

  // ---------------------------------------------------------------------
  // Shape of a ray

  lemma {:induction false} RayFromLength(f: RayFrame, x: int, y: int, err: int)
    ensures |RayFrom(f, x, y, err)| == Remaining(f, x)
    decreases Remaining(f, x)
  {
    if Remaining(f, x) > 0 {
      var err1 := err + f.deltaY;
      var x1 := if f.backward then x - 1 else x + 1;
      RayFromLength(f, x1, y + f.yStep, err1 - f.deltaX);
      RayFromLength(f, x1, y, err1);
    }
  }

  /** Major coordinate of a point: the one the loop counter runs over. */
  function Major(f: RayFrame, p: Pos): int
  {
    if f.steep then p.y else p.x
  }

  /** Every visited tile's major coordinate lies strictly on the start side of `endX`. */
  lemma {:induction false} RayFromMajor(f: RayFrame, x: int, y: int, err: int)
    ensures forall p :: p in RayFrom(f, x, y, err) ==>
      if f.backward then f.endX < Major(f, p) <= x else x <= Major(f, p) < f.endX
    decreases Remaining(f, x)
  {
    if Remaining(f, x) > 0 {
      var err1 := err + f.deltaY;
      var x1 := if f.backward then x - 1 else x + 1;
      RayFromMajor(f, x1, y + f.yStep, err1 - f.deltaX);
      RayFromMajor(f, x1, y, err1);
    }
  }

  /**
   * A ray has one tile per step of its major axis, starts at `start` whenever
   * `start != end`, and never contains `end` (both loops stop before `end.X`).
   */
  lemma RayShape(start: Pos, end: Pos)
    ensures |Ray(start, end)| == if IsSteep(start, end) then Abs(end.y - start.y) else Abs(end.x - start.x)
    ensures start != end ==> |Ray(start, end)| > 0 && Ray(start, end)[0] == start
    ensures end !in Ray(start, end)
    ensures start == end ==> Ray(start, end) == []
  {
    var f := Frame(start, end);
    var s := Swap(f.steep, start);
    RayFromLength(f, s.x, s.y, 0);
    RayFromMajor(f, s.x, s.y, 0);
    assert Major(f, end) == f.endX;
  }

  /**
   * `bresenham` returns right after marking the first opaque tile: the marked
   * part is a prefix of the ray, every tile of it but the last is transparent,
   * and when the ray is cut short its last marked tile is opaque.
   */
  lemma {:induction false} TouchedShape(g: Grid, r: seq<Pos>)
    requires WellFormed(g)
    ensures var t := Touched(g, r);
      |t| <= |r| && t == r[..|t|] && (r != [] ==> t != []) &&
      (forall i :: 0 <= i < |t| - 1 ==> CanSeeThrough(g, t[i])) &&
      (|t| < |r| ==> !CanSeeThrough(g, t[|t| - 1]))
  {
    if r != [] && CanSeeThrough(g, r[0]) {
      TouchedShape(g, r[1..]);
      var t := Touched(g, r);
      assert t == [r[0]] + Touched(g, r[1..]);
      forall i | 0 <= i < |t| - 1 ensures CanSeeThrough(g, t[i]) {
        if i > 0 { assert t[i] == Touched(g, r[1..])[i - 1]; }
      }
    }
  }

  /** Touched tiles only depend on terrain, never on the visibility flags. */
  lemma {:induction false} TouchedSameTerrain(g: Grid, h: Grid, r: seq<Pos>)
    requires WellFormed(g) && SameTerrain(g, h)
    ensures WellFormed(h) && Touched(g, r) == Touched(h, r)
  {
    SameTerrainSameSight(g, h, if r == [] then Pos(0, 0) else r[0]);
    if r != [] {
      TouchedSameTerrain(g, h, r[1..]);
    }
  }

  lemma LightsSameTerrain(g: Grid, h: Grid, c: Pos, targets: set<Pos>)
    requires WellFormed(g) && SameTerrain(g, h)
    ensures WellFormed(h) && Lights(g, c, targets) == Lights(h, c, targets)
  {
    SameTerrainSameSight(g, h, c);
    forall t | t in targets ensures Touched(g, Ray(c, t)) == Touched(h, Ray(c, t)) {
      TouchedSameTerrain(g, h, Ray(c, t));
    }
  }

  // ---------------------------------------------------------------------
  // Marking

  /** Marking only raises `Visible` and `Seen`; terrain and every unmarked tile stay as they were. */
  lemma LitOnlyRaises(g: Grid, s: set<Pos>)
    ensures SameTerrain(g, Lit(g, s)) && SeenKept(g, Lit(g, s))
    ensures forall y, x :: 0 <= y < |g| && 0 <= x < |g[y]| && g[y][x].visible ==> Lit(g, s)[y][x].visible
    ensures forall y, x :: 0 <= y < |g| && 0 <= x < |g[y]| && Pos(x, y) in s ==>
      Lit(g, s)[y][x].visible && Lit(g, s)[y][x].seen
  {
  }

  lemma LitPlusOne(g: Grid, s: set<Pos>, p: Pos)
    requires 0 <= p.y < |g| && 0 <= p.x < |g[p.y]|
    ensures var h := Lit(g, s);
      h[p.y := h[p.y][p.x := Mark(h[p.y][p.x])]] == Lit(g, s + {p})
  {
    var h := Lit(g, s);
    var h2 := h[p.y := h[p.y][p.x := Mark(h[p.y][p.x])]];
    var want := Lit(g, s + {p});
    assert |h2| == |want|;
    forall y | 0 <= y < |g| ensures h2[y] == want[y] {
      assert |h2[y]| == |want[y]|;
      forall x | 0 <= x < |g[y]| ensures h2[y][x] == want[y][x] {
      }
    }
  }

  lemma LitNothing(g: Grid)
    ensures Lit(g, {}) == g
  {
    var h := Lit(g, {});
    assert |h| == |g|;
    forall y | 0 <= y < |g| ensures h[y] == g[y] {
      assert |h[y]| == |g[y]|;
    }
  }

  lemma LitTwice(g: Grid, a: set<Pos>, b: set<Pos>)
    ensures Lit(Lit(g, a), b) == Lit(g, a + b)
  {
    var h := Lit(Lit(g, a), b);
    var want := Lit(g, a + b);
    assert |h| == |want|;
    forall y | 0 <= y < |g| ensures h[y] == want[y] {
      assert |h[y]| == |want[y]|;
    }
  }

  // ---------------------------------------------------------------------
  // The imperative ray and the sweep

  /** Marks one ray tile both visible and seen, and tells whether the ray may go on past it. */
  method MarkTile(level: Level, pos: Pos) returns (transparent: bool)
    requires level.Valid() && InRange(level.tiles, pos)
    modifies level`tiles
    ensures level.Valid() && SameTerrain(old(level.tiles), level.tiles)
    ensures level.tiles == old(level.tiles)[pos.y := old(level.tiles)[pos.y][pos.x := Mark(old(level.tiles)[pos.y][pos.x])]]
    ensures transparent == CanSeeThrough(old(level.tiles), pos)
  {
    level.tiles := level.tiles[pos.y := level.tiles[pos.y][pos.x := level.tiles[pos.y][pos.x].(visible := true, seen := true)]];
    transparent := CanSeeThrough(level.tiles, pos);
    SameTerrainSameSight(old(level.tiles), level.tiles, pos);
  }

  /** One loop step of `bresenham`, in terms of the specification. */
  lemma RayStep(g0: Grid, done: seq<Pos>, f: RayFrame, x: int, y: int, err: int, full: seq<Pos>)
    requires WellFormed(g0) && Remaining(f, x) > 0
    requires full == done + Touched(g0, RayFrom(f, x, y, err))
    requires forall q :: q in full ==> InRange(g0, q)
    ensures var pos := Swap(f.steep, Pos(x, y));
      var h := Lit(g0, Elems(done));
      InRange(g0, pos) && RayFrom(f, x, y, err)[0] == pos &&
      h[pos.y := h[pos.y][pos.x := Mark(h[pos.y][pos.x])]] == Lit(g0, Elems(done + [pos])) &&
      SameTerrain(g0, Lit(g0, Elems(done + [pos]))) &&
      (!CanSeeThrough(g0, pos) ==> full == done + [pos]) &&
      (CanSeeThrough(g0, pos) ==> full == (done + [pos]) + Touched(g0, RayFrom(f, x, y, err)[1..]))
  {
    var pos := Swap(f.steep, Pos(x, y));
    assert RayFrom(f, x, y, err)[0] == pos;
    assert pos in full;
    LitPlusOne(g0, Elems(done), pos);
    assert Elems(done + [pos]) == Elems(done) + {pos};
    LitOnlyRaises(g0, Elems(done + [pos]));
  }

  /** The tail of a ray after one step of the loop, from state (x, y, err) to (x1, y1, err1). */
  lemma RayTail(f: RayFrame, x: int, y: int, err: int, x1: int, y1: int, err1: int)
    requires Remaining(f, x) > 0
    requires x1 == if f.backward then x - 1 else x + 1
    requires var e := err + f.deltaY;
      if 2 * e >= f.deltaX then y1 == y + f.yStep && err1 == e - f.deltaX else y1 == y && err1 == e
    ensures RayFrom(f, x, y, err) == [Swap(f.steep, Pos(x, y))] + RayFrom(f, x1, y1, err1)
    ensures RayFrom(f, x, y, err)[1..] == RayFrom(f, x1, y1, err1)
  {
  }

  /**
   * `bresenham(start, end)`: marks exactly the touched prefix of the ray.
   * The source indexes the map before testing it, so every touched tile must be on the map.
   */
  method Bresenham(level: Level, start: Pos, end: Pos)
    requires level.Valid()
    requires forall q :: q in Touched(level.tiles, Ray(start, end)) ==> InRange(level.tiles, q)
    modifies level`tiles
    ensures level.Valid()
    ensures level.tiles == Lit(old(level.tiles), Elems(Touched(old(level.tiles), Ray(start, end))))
  {
    var steep := Abs(end.y - start.y) > Abs(end.x - start.x);
    var s, e := start, end;
    if steep {
      s, e := Pos(start.y, start.x), Pos(end.y, end.x);
    }
    var deltaY := Abs(e.y - s.y);
    var ystep := 1;
    if s.y >= e.y {
      ystep := -1;
    }
    assert s == Swap(steep, start) && e == Swap(steep, end);
    if s.x > e.x {
      var f := RayFrame(steep, true, e.x, s.x - e.x, deltaY, ystep);
      assert f == Frame(start, end);
      Sweep(level, f, s.x, s.y, Touched(level.tiles, Ray(start, end)));
    } else {
      var f := RayFrame(steep, false, e.x, e.x - s.x, deltaY, ystep);
      assert f == Frame(start, end);
      Sweep(level, f, s.x, s.y, Touched(level.tiles, Ray(start, end)));
    }
  }

  /**
   * The loop of `bresenham` over the major axis, from `x0` towards `f.endX`
   * (downwards when `f.backward`, the source's first loop; upwards otherwise, its second).
   */
  method Sweep(level: Level, f: RayFrame, x0: int, y0: int, ghost full: seq<Pos>)
    requires level.Valid()
    requires full == Touched(level.tiles, RayFrom(f, x0, y0, 0))
    requires forall q :: q in full ==> InRange(level.tiles, q)
    modifies level`tiles
    ensures level.Valid()
    ensures level.tiles == Lit(old(level.tiles), Elems(full))
  {
    ghost var g0 := level.tiles;
    ghost var done: seq<Pos> := [];
    LitNothing(g0);
    LitOnlyRaises(g0, {});
    assert Elems(done) == {};
    var err := 0;
    var y := y0;
    var x := x0;
    while if f.backward then x > f.endX else x < f.endX
      invariant SameTerrain(g0, level.tiles) && level.tiles == Lit(g0, Elems(done))
      invariant full == done + Touched(g0, RayFrom(f, x, y, err))
      decreases Remaining(f, x)
    {
      var pos := if f.steep then Pos(y, x) else Pos(x, y);
      RayStep(g0, done, f, x, y, err, full);
      SameTerrainSameSight(g0, level.tiles, pos);
      var transparent := MarkTile(level, pos);
      done := done + [pos];
      assert level.tiles == Lit(g0, Elems(done));
      if !transparent {
        assert full == done;
        return;
      }
      ghost var px, py, perr := x, y, err;
      err := err + f.deltaY;
      if 2 * err >= f.deltaX {
        y := y + f.yStep;
        err := err - f.deltaX;
      }
      x := if f.backward then x - 1 else x + 1;
      RayTail(f, px, py, perr, x, y, err);
    }
    assert RayFrom(f, x, y, err) == [];
    assert full == done + [];
    assert full == done;
  }

  // ---------------------------------------------------------------------
  // The sight sweep

  lemma InDisk(c: Pos, d: int, t: Pos)
    ensures t in Disk(c, d) <==>
      c.x - d <= t.x <= c.x + d && c.y - d <= t.y <= c.y + d && InSight(c, d, t)
  {
    if c.x - d <= t.x <= c.x + d && c.y - d <= t.y <= c.y + d && InSight(c, d, t) {
      assert t == Pos(t.x, t.y);
    }
  }

  /** The targets of `Disk(c, d)` the nested loops have handled when they stand at row `y`, column `x`. */
  function Swept(c: Pos, d: int, y: int, x: int): (s: set<Pos>)
    ensures s <= Disk(c, d)
  {
    set t | t in Disk(c, d) && (t.y < y || (t.y == y && t.x < x))
  }

  lemma SweptStep(c: Pos, d: int, y: int, x: int)
    requires c.y - d <= y <= c.y + d && c.x - d <= x <= c.x + d
    ensures Swept(c, d, y, x + 1) ==
      Swept(c, d, y, x) + (if InSight(c, d, Pos(x, y)) then {Pos(x, y)} else {})
  {
    InDisk(c, d, Pos(x, y));
  }

  lemma SweptRow(c: Pos, d: int, y: int)
    ensures Swept(c, d, y, c.x + d + 1) == Swept(c, d, y + 1, c.x - d)
  {
    forall t | t in Disk(c, d) ensures c.x - d <= t.x <= c.x + d {
      InDisk(c, d, t);
    }
  }

  lemma SweptBounds(c: Pos, d: int, y: int)
    ensures y <= c.y - d ==> Swept(c, d, y, c.x - d) == {}
    ensures y > c.y + d ==> Swept(c, d, y, c.x - d) == Disk(c, d)
  {
    forall t | t in Disk(c, d) ensures c.x - d <= t.x <= c.x + d && c.y - d <= t.y <= c.y + d {
      InDisk(c, d, t);
    }
  }

  /** Casting one more ray adds exactly the tiles it touches. */
  lemma LightsAdd(g: Grid, c: Pos, a: set<Pos>, t: Pos)
    requires WellFormed(g)
    ensures Lights(g, c, a + {t}) == Lights(g, c, a) + Elems(Touched(g, Ray(c, t)))
  {
  }

  /** One call of `bresenham` inside `lineOfSight`, in terms of the specification. */
  lemma SightStep(g0: Grid, c: Pos, d: int, a: set<Pos>, t: Pos)
    requires WellFormed(g0) && SightSafe(g0, c, d) && t in Disk(c, d)
    ensures var h := Lit(g0, Lights(g0, c, a));
      WellFormed(h) &&
      (forall q :: q in Touched(h, Ray(c, t)) ==> InRange(h, q)) &&
      Lit(h, Elems(Touched(h, Ray(c, t)))) == Lit(g0, Lights(g0, c, a + {t}))
  {
    var h := Lit(g0, Lights(g0, c, a));
    LitOnlyRaises(g0, Lights(g0, c, a));
    TouchedSameTerrain(g0, h, Ray(c, t));
    LightsAdd(g0, c, a, t);
    LitTwice(g0, Lights(g0, c, a), Elems(Touched(g0, Ray(c, t))));
    forall q | q in Touched(h, Ray(c, t)) ensures InRange(h, q) {
      assert q in Lights(g0, c, Disk(c, d));
    }
  }

  /**
   * `lineOfSight`: casts a ray from the player to every tile of the square of
   * half-side `SightRange` whose Euclidean distance is at most `SightRange`,
   * row by row; the grid ends with exactly the touched tiles marked.
   */
  method LineOfSight(level: Level)
    requires level.Valid()
    requires SightSafe(level.tiles, level.player.pos, level.player.sightRange)
    modifies level`tiles
    ensures level.Valid()
    ensures level.tiles ==
      Lit(old(level.tiles), Lights(old(level.tiles), level.player.pos, Disk(level.player.pos, level.player.sightRange)))
  {
    var pos := level.player.pos;
    var dist := level.player.sightRange;
    ghost var g0 := level.tiles;
    SweptBounds(pos, dist, pos.y - dist);
    assert Lights(g0, pos, {}) == {};
    LitNothing(g0);
    var y := pos.y - dist;
    while y <= pos.y + dist
      invariant level.Valid()
      invariant pos.y - dist <= y && (dist >= 0 ==> y <= pos.y + dist + 1)
      invariant level.tiles == Lit(g0, Lights(g0, pos, Swept(pos, dist, y, pos.x - dist)))
    {
      SightRow(level, g0, pos, dist, y);
      SweptRow(pos, dist, y);
      y := y + 1;
    }
    SweptBounds(pos, dist, y);
  }

  /** The inner loop of `lineOfSight`: the targets of row `y`, left to right. */
  method SightRow(level: Level, ghost g0: Grid, pos: Pos, dist: int, y: int)
    requires level.Valid() && WellFormed(g0) && SightSafe(g0, pos, dist)
    requires pos.y - dist <= y <= pos.y + dist
    requires level.tiles == Lit(g0, Lights(g0, pos, Swept(pos, dist, y, pos.x - dist)))
    modifies level`tiles
    ensures level.Valid()
    ensures level.tiles == Lit(g0, Lights(g0, pos, Swept(pos, dist, y, pos.x + dist + 1)))
  {
    var x := pos.x - dist;
    while x <= pos.x + dist
      invariant level.Valid()
      invariant pos.x - dist <= x <= pos.x + dist + 1
      invariant level.tiles == Lit(g0, Lights(g0, pos, Swept(pos, dist, y, x)))
    {
      var xDelta := pos.x - x;
      var yDelta := pos.y - y;
      SweptStep(pos, dist, y, x);
      if xDelta * xDelta + yDelta * yDelta <= dist * dist {
        InDisk(pos, dist, Pos(x, y));
        ghost var a := Swept(pos, dist, y, x);
        SightStep(g0, pos, dist, a, Pos(x, y));
        Bresenham(level, pos, Pos(x, y));
        assert level.tiles == Lit(g0, Lights(g0, pos, a + {Pos(x, y)}));
      } else {
        assert Swept(pos, dist, y, x + 1) == Swept(pos, dist, y, x);
      }
      x := x + 1;
    }
  }

  /** The ray to a 4-neighbour is the start tile alone. */
  lemma AdjacentRay(c: Pos, t: Pos)
    requires Adjacent(c, t)
    ensures Ray(c, t) == [c]
  {
    RayShape(c, t);
  }

  lemma DiskOne(c: Pos)
    ensures Disk(c, 1) == {c, Pos(c.x + 1, c.y), Pos(c.x - 1, c.y), Pos(c.x, c.y + 1), Pos(c.x, c.y - 1)}
  {
    forall t ensures t in Disk(c, 1) <==>
      t in {c, Pos(c.x + 1, c.y), Pos(c.x - 1, c.y), Pos(c.x, c.y + 1), Pos(c.x, c.y - 1)}
    {
      InDisk(c, 1, t);
    }
  }

  /**
   * With sight range 1 only the player's own tile is marked: the four rays to
   * the adjacent targets each stop before their end, and the disk has no diagonals.
   */
  lemma SightOneMarksOnlyPlayer(g: Grid, c: Pos)
    requires WellFormed(g)
    ensures Lights(g, c, Disk(c, 1)) == {c}
  {
    DiskOne(c);
    forall q | q in Lights(g, c, Disk(c, 1)) ensures q == c {
      var t :| t in Disk(c, 1) && q in Touched(g, Ray(c, t));
      CrossRay(g, c, t);
    }
    var right := Pos(c.x + 1, c.y);
    AdjacentRay(c, right);
    assert c in Touched(g, Ray(c, right));
  }

  /** Every ray to a target of the 5-point cross touches the player's tile alone, if anything. */
  lemma CrossRay(g: Grid, c: Pos, t: Pos)
    requires WellFormed(g)
    requires t in {c, Pos(c.x + 1, c.y), Pos(c.x - 1, c.y), Pos(c.x, c.y + 1), Pos(c.x, c.y - 1)}
    ensures forall q :: q in Touched(g, Ray(c, t)) ==> q == c
  {
    if t == c {
      RayShape(c, c);
    } else {
      AdjacentRay(c, t);
      assert Touched(g, [c]) == [c];
    }
  }
}
