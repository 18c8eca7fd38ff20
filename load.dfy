/**
 * Level loading of rpg/game/game.go (`loadLevels`): the map text of one
 * level, already split into lines, is decoded glyph by glyph into a grid as
 * wide as the longest line; the player and the monsters are placed where
 * their glyphs stand; every pending tile is then repaired to floor with
 * `bfsFloor`, and the first sight computation runs.
 */
module Load {
  import opened Wrappers
  import opened Dungeon
  import opened Levels
  import opened Vision
  import opened Search
  import opened Monsters

  /** What a map glyph puts on its tile besides terrain. */
  datatype Spawn = NoSpawn | PlayerSpawn | RatSpawn | SpiderSpawn

  datatype Cell = Cell(tile: Tile, spawn: Spawn)

  /** The glyphs the decoder accepts; any other is fatal ("Invalid character in map"). */
  predicate ValidGlyph(c: char)
  {
    c == ' ' || c == '\t' || c == '\n' || c == '\r' || c == '#' || c == '|' || c == '/' ||
    c == 'u' || c == 'd' || c == '.' || c == '@' || c == 'R' || c == 'S'
  }

  /**
   * The decoder's switch on one glyph. Whitespace is blank, '#' wall and '.'
   * floor; doors, stairs, the player and the monsters stand on a pending
   * base that the repair pass fills in later.
   */
  function DecodeGlyph(c: char): (r: Option<Cell>)
    ensures r.None? <==> !ValidGlyph(c)
    ensures r.Some? ==> !r.value.tile.visible && !r.value.tile.seen
    ensures r.Some? ==> (r.value.tile.glyph == Pending <==> c in "|/ud@RS")
    ensures r.Some? ==> (r.value.spawn == PlayerSpawn <==> c == '@')
    ensures r.Some? ==> (r.value.spawn == RatSpawn <==> c == 'R') && (r.value.spawn == SpiderSpawn <==> c == 'S')
  {
    if c == ' ' || c == '\t' || c == '\n' || c == '\r' then Some(Cell(BlankTile, NoSpawn))
    else if c == '#' then Some(Cell(BlankTile.(glyph := StoneWall), NoSpawn))
    else if c == '|' then Some(Cell(Tile(Pending, ClosedDoor, false, false), NoSpawn))
    else if c == '/' then Some(Cell(Tile(Pending, OpenDoor, false, false), NoSpawn))
    else if c == 'u' then Some(Cell(Tile(Pending, UpStair, false, false), NoSpawn))
    else if c == 'd' then Some(Cell(Tile(Pending, DownStair, false, false), NoSpawn))
    else if c == '.' then Some(Cell(BlankTile.(glyph := DirtFloor), NoSpawn))
    else if c == '@' then Some(Cell(BlankTile.(glyph := Pending), PlayerSpawn))
    else if c == 'R' then Some(Cell(BlankTile.(glyph := Pending), RatSpawn))
    else if c == 'S' then Some(Cell(BlankTile.(glyph := Pending), SpiderSpawn))
    else None
  }

  /** The tile a glyph decodes to, blank past the end of a line. */
  function GlyphTile(c: char): Tile
  {
    match DecodeGlyph(c)
    case Some(cell) => cell.tile
    case None => BlankTile
  }

  /** The monster a spawn glyph creates at `p`. */
  function SpawnAt(c: char, p: Pos): Character
  {
    if c == 'R' then NewRat(p) else NewSpider(p)
  }

  /** The length of the longest line (0 for none), the width of every row of the grid. */
  function Longest(lines: seq<string>): (w: nat)
    ensures forall y :: 0 <= y < |lines| ==> |lines[y]| <= w
    ensures |lines| == 0 ==> w == 0
    ensures |lines| > 0 ==> exists y :: 0 <= y < |lines| && |lines[y]| == w
  {
    if |lines| == 0 then 0
    else
      var w := Longest(lines[..|lines| - 1]);
      assert forall y :: 0 <= y < |lines| - 1 ==> lines[..|lines| - 1][y] == lines[y];
      if |lines[|lines| - 1]| > w then |lines[|lines| - 1]| else w
  }

  function DecodeRowTiles(line: string, width: nat): seq<Tile>
  {
    seq(width, x requires 0 <= x < width => if x < |line| then GlyphTile(line[x]) else BlankTile)
  }

  /** The grid `loadLevels` builds: one row per line, padded with blank tiles to the longest line. */
  function DecodeGrid(lines: seq<string>): (g: Grid)
    ensures |g| == |lines| && forall y :: 0 <= y < |g| ==> |g[y]| == Longest(lines)
    ensures |lines| > 0 ==> WellFormed(g)
    ensures forall y, x :: 0 <= y < |lines| && 0 <= x < Longest(lines) ==>
      g[y][x] == if x < |lines[y]| then GlyphTile(lines[y][x]) else BlankTile
  {
    seq(|lines|, y requires 0 <= y < |lines| => DecodeRowTiles(lines[y], Longest(lines)))
  }

  predicate OnLine(lines: seq<string>, p: Pos)
  {
    0 <= p.y < |lines| && 0 <= p.x < |lines[p.y]|
  }

  /** Every glyph of the map text is one the decoder accepts. */
  predicate AllValid(lines: seq<string>)
  {
    forall y, x :: 0 <= y < |lines| && 0 <= x < |lines[y]| ==> ValidGlyph(lines[y][x])
  }

  /** The last index of `c` in `line`, if any. */
  function RowLast(line: string, c: char): (r: Option<nat>)
    ensures r.None? <==> c !in line
    ensures r.Some? ==> r.value < |line| && line[r.value] == c && forall x :: r.value < x < |line| ==> line[x] != c
  {
    if line == [] then None
    else if line[|line| - 1] == c then Some(|line| - 1)
    else
      var r := RowLast(line[..|line| - 1], c);
      assert forall x :: 0 <= x < |line| - 1 ==> line[..|line| - 1][x] == line[x];
      r
  }

  lemma RowLastStep(line: string, x: nat, c: char)
    requires x < |line|
    ensures RowLast(line[..x + 1], c) == if line[x] == c then Some(x) else RowLast(line[..x], c)
  {
    assert line[..x + 1][..x] == line[..x];
  }

  /** The last '@' among the first `n` lines, in reading order. */
  function LastPlayer(lines: seq<string>, n: nat): Option<Pos>
    requires n <= |lines|
  {
    if n == 0 then None
    else match RowLast(lines[n - 1], '@')
      case Some(x) => Some(Pos(x, n - 1))
      case None => LastPlayer(lines, n - 1)
  }

  /** The player's start: the last '@' of the map, or the template's (0, 0) when there is none. */
  function StartPos(lines: seq<string>): Pos
  {
    match LastPlayer(lines, |lines|)
    case Some(p) => p
    case None => Pos(0, 0)
  }

  /** `LastPlayer` finds an '@', and no '@' comes after it in reading order; `None` means there is none. */
  lemma {:induction false} LastPlayerIsLast(lines: seq<string>, n: nat)
    requires n <= |lines|
    ensures LastPlayer(lines, n).None? ==> forall y, x :: 0 <= y < n && 0 <= x < |lines[y]| ==> lines[y][x] != '@'
    ensures LastPlayer(lines, n).Some? ==>
      var p := LastPlayer(lines, n).value;
      OnLine(lines, p) && p.y < n && lines[p.y][p.x] == '@' &&
      forall y, x :: 0 <= y < n && 0 <= x < |lines[y]| && (y > p.y || (y == p.y && x > p.x)) ==> lines[y][x] != '@'
  {
    if n > 0 {
      LastPlayerIsLast(lines, n - 1);
      match RowLast(lines[n - 1], '@')
      case Some(x) =>
      case None =>
        var line := lines[n - 1];
        assert forall x :: 0 <= x < |line| ==> line[x] != '@';
    }
  }

  /** The player template of `loadLevels`, placed at `pos`. */
  function Dralanor(pos: Pos): (c: Character)
    ensures c.pos == pos && c.name == "Dralanor" && c.rune == '@'
    ensures c.hp == 20 && c.strength == 20 && c.speed == 1.0 && c.ap == 0.0 && c.sightRange == 7
  {
    Character(pos, "Dralanor", '@', 20, 20, 1.0, 0.0, 7)
  }

  datatype Decoded = Decoded(grid: Grid, player: Pos, monsters: map<Pos, Character>)

  /**
   * The monsters of the map text: one per 'R' or 'S', keyed by its position.
   */
  ghost predicate SpawnedMonsters(lines: seq<string>, n: nat, monsters: map<Pos, Character>)
    requires n <= |lines|
  {
    (forall p :: p in monsters <==> OnLine(lines, p) && p.y < n && lines[p.y][p.x] in "RS") &&
    (forall p :: p in monsters ==> monsters[p] == SpawnAt(lines[p.y][p.x], p))
  }

  lemma SpawnedStep(lines: seq<string>, y: nat, monsters0: map<Pos, Character>, monsters: map<Pos, Character>)
    requires y < |lines| && SpawnedMonsters(lines, y, monsters0)
    requires forall p :: p in monsters <==> p in monsters0 || (p.y == y && 0 <= p.x < |lines[y]| && lines[y][p.x] in "RS")
    requires forall p :: p in monsters ==> monsters[p] == if p in monsters0 then monsters0[p] else SpawnAt(lines[y][p.x], p)
    ensures SpawnedMonsters(lines, y + 1, monsters)
  {
    forall p | p in monsters ensures monsters[p] == SpawnAt(lines[p.y][p.x], p) {
      if p !in monsters0 {
        assert p.y == y;
      }
    }
  }

  /** The row after the first `x` glyphs of the line: those decoded, the rest blank. */
  ghost predicate RowUpTo(line: string, width: nat, x: nat, row: seq<Tile>)
  {
    |row| == width && x <= |line| &&
    (forall i :: 0 <= i < width ==> row[i] == if i < x then GlyphTile(line[i]) else BlankTile) &&
    (forall i :: 0 <= i < x ==> ValidGlyph(line[i]))
  }

  /** The monsters after the first `x` glyphs of line `y`: those of earlier lines, and one per 'R'/'S' so far. */
  ghost predicate MonstersUpTo(line: string, y: nat, x: nat, monsters0: map<Pos, Character>, monsters: map<Pos, Character>)
    requires x <= |line|
  {
    (forall p :: p in monsters <==> p in monsters0 || (p.y == y && 0 <= p.x < x && line[p.x] in "RS")) &&
    (forall p :: p in monsters ==> monsters[p] == if p in monsters0 then monsters0[p] else SpawnAt(line[p.x], p))
  }

  /** The state of the glyph loop over one line after its first `x` glyphs. */
  ghost predicate LineState(line: string, y: nat, width: nat, x: nat, player0: Pos, monsters0: map<Pos, Character>,
                            row: seq<Tile>, player: Pos, monsters: map<Pos, Character>)
    requires x <= |line|
  {
    RowUpTo(line, width, x, row) &&
    player == (match RowLast(line[..x], '@') case Some(i) => Pos(i, y) case None => player0) &&
    MonstersUpTo(line, y, x, monsters0, monsters)
  }

  lemma RowStep(line: string, width: nat, x: nat, row: seq<Tile>)
    requires x < |line| <= width && RowUpTo(line, width, x, row) && ValidGlyph(line[x])
    ensures RowUpTo(line, width, x + 1, row[x := GlyphTile(line[x])])
  {
  }

  lemma MonstersStep(line: string, y: nat, x: nat, monsters0: map<Pos, Character>, monsters: map<Pos, Character>)
    requires x < |line| && MonstersUpTo(line, y, x, monsters0, monsters)
    requires forall p :: p in monsters0 ==> p.y < y
    ensures line[x] in "RS" ==> MonstersUpTo(line, y, x + 1, monsters0, monsters[Pos(x, y) := SpawnAt(line[x], Pos(x, y))])
    ensures line[x] !in "RS" ==> MonstersUpTo(line, y, x + 1, monsters0, monsters)
  {
    assert Pos(x, y) !in monsters0;
  }

  /**
   * One glyph of the decoding loop: decoded into its tile, the player moved
   * there on '@', a monster created there on 'R' or 'S'. An invalid glyph
   * stops everything.
   */
  method DecodeAt(line: string, y: nat, width: nat, x: nat, ghost player0: Pos, ghost monsters0: map<Pos, Character>,
                  row: seq<Tile>, player: Pos, monsters: map<Pos, Character>)
    returns (ok: bool, row': seq<Tile>, player': Pos, monsters': map<Pos, Character>)
    requires x < |line| <= width
    requires forall p :: p in monsters0 ==> p.y < y
    requires LineState(line, y, width, x, player0, monsters0, row, player, monsters)
    ensures ok <==> ValidGlyph(line[x])
    ensures ok ==> LineState(line, y, width, x + 1, player0, monsters0, row', player', monsters')
  {
    RowLastStep(line, x, '@');
    var cell := DecodeGlyph(line[x]);
    if cell.None? {
      return false, row, player, monsters;
    }
    RowStep(line, width, x, row);
    MonstersStep(line, y, x, monsters0, monsters);
    player', monsters' := player, monsters;
    match cell.value.spawn {
      case PlayerSpawn =>
        player' := Pos(x, y);
      case RatSpawn =>
        monsters' := monsters[Pos(x, y) := NewRat(Pos(x, y))];
      case SpiderSpawn =>
        monsters' := monsters[Pos(x, y) := NewSpider(Pos(x, y))];
      case NoSpawn =>
    }
    row' := row[x := cell.value.tile];
    ok := true;
  }

  /**
   * One line of the decoding loop: each glyph decoded into its tile, the
   * player moved to each '@', a monster created for each 'R' and 'S'; an
   * invalid glyph stops everything.
   */
  method DecodeLine(line: string, y: nat, width: nat, player0: Pos, monsters0: map<Pos, Character>)
    returns (ok: bool, row: seq<Tile>, player: Pos, monsters: map<Pos, Character>)
    requires |line| <= width
    requires forall p :: p in monsters0 ==> p.y < y
    ensures ok <==> forall x :: 0 <= x < |line| ==> ValidGlyph(line[x])
    ensures ok ==> row == DecodeRowTiles(line, width)
    ensures ok ==> player == match RowLast(line, '@') case Some(x) => Pos(x, y) case None => player0
    ensures ok ==> forall p :: p in monsters <==> p in monsters0 || (p.y == y && 0 <= p.x < |line| && line[p.x] in "RS")
    ensures ok ==> forall p :: p in monsters ==> monsters[p] == if p in monsters0 then monsters0[p] else SpawnAt(line[p.x], p)
  {
    row := seq(width, _ => BlankTile);
    player, monsters := player0, monsters0;
    assert line[..0] == [];
    for x := 0 to |line|
      invariant LineState(line, y, width, x, player0, monsters0, row, player, monsters)
    {
      ok, row, player, monsters := DecodeAt(line, y, width, x, player0, monsters0, row, player, monsters);
      if !ok {
        return;
      }
    }
    assert line[..|line|] == line;
    ok := true;
  }

  /** The first `y` lines are valid and decoded into the rows of `grid`. */
  ghost predicate RowsDecoded(lines: seq<string>, width: nat, y: nat, grid: Grid)
    requires y <= |lines|
  {
    |grid| == y && (forall i :: 0 <= i < y ==> grid[i] == DecodeRowTiles(lines[i], width)) &&
    (forall i, x :: 0 <= i < y && 0 <= x < |lines[i]| ==> ValidGlyph(lines[i][x]))
  }

  lemma RowsDecodedStep(lines: seq<string>, width: nat, y: nat, grid: Grid, row: seq<Tile>)
    requires y < |lines| && RowsDecoded(lines, width, y, grid)
    requires row == DecodeRowTiles(lines[y], width) && forall x :: 0 <= x < |lines[y]| ==> ValidGlyph(lines[y][x])
    ensures RowsDecoded(lines, width, y + 1, grid + [row])
  {
    assert forall i :: 0 <= i < y ==> (grid + [row])[i] == grid[i];
  }

  lemma DecodedRows(lines: seq<string>, grid: Grid)
    requires |grid| == |lines| && forall i :: 0 <= i < |lines| ==> grid[i] == DecodeRowTiles(lines[i], Longest(lines))
    ensures grid == DecodeGrid(lines)
  {
  }

  /** Spawned monsters stand where their keys say and are alive. */
  lemma SpawnedConsistent(lines: seq<string>, monsters: map<Pos, Character>)
    requires SpawnedMonsters(lines, |lines|, monsters)
    ensures MonstersConsistent(monsters)
  {
    forall p | p in monsters ensures monsters[p].pos == p && monsters[p].hp > 0 {
      assert monsters[p] == SpawnAt(lines[p.y][p.x], p);
    }
  }

  /**
   * The decoding loops of `loadLevels` over the whole map text. Fails exactly
   * when some glyph is invalid; otherwise yields the padded grid, the
   * player's start and the spawned monsters.
   */
  method DecodeMap(lines: seq<string>) returns (r: Result<Decoded, string>)
    ensures r.Failure? <==> !AllValid(lines)
    ensures r.Success? ==> r.value.grid == DecodeGrid(lines)
    ensures r.Success? ==> r.value.player == StartPos(lines)
    ensures r.Success? ==> SpawnedMonsters(lines, |lines|, r.value.monsters)
  {
    var width := Longest(lines);
    var grid: Grid := [];
    var player := Pos(0, 0);
    var monsters: map<Pos, Character> := map[];
    for y := 0 to |lines|
      invariant RowsDecoded(lines, width, y, grid)
      invariant player == match LastPlayer(lines, y) case Some(p) => p case None => Pos(0, 0)
      invariant SpawnedMonsters(lines, y, monsters)
    {
      var ok, row, player', monsters' := DecodeLine(lines[y], y, width, player, monsters);
      if !ok {
        return Failure("Invalid character in map");
      }
      SpawnedStep(lines, y, monsters, monsters');
      RowsDecodedStep(lines, width, y, grid, row);
      grid := grid + [row];
      player, monsters := player', monsters';
    }
    DecodedRows(lines, grid);
    r := Success(Decoded(grid, player, monsters));
  }

  // ---------------------------------------------------------------------
  // Repair of pending tiles

  function RepairTile(t: Tile): Tile
  {
    if t.glyph == Pending then t.(glyph := DirtFloor) else t
  }

  /** The grid after the repair pass: every pending base glyph turned to floor, nothing else changed. */
  function Repaired(g: Grid): (h: Grid)
    ensures |h| == |g| && forall y :: 0 <= y < |g| ==> |h[y]| == |g[y]|
    ensures forall y, x :: 0 <= y < |g| && 0 <= x < |g[y]| ==>
      h[y][x].glyph != Pending && h[y][x].(glyph := g[y][x].glyph) == g[y][x] &&
      (g[y][x].glyph != Pending ==> h[y][x] == g[y][x])
  {
    seq(|g|, y requires 0 <= y < |g| => seq(|g[y]|, x requires 0 <= x < |g[y]| => RepairTile(g[y][x])))
  }

  /** Repair changes no tile's transparency: a pending base is neither wall nor blank, and neither is floor. */
  lemma RepairedSameSight(g: Grid, p: Pos)
    requires WellFormed(g)
    ensures WellFormed(Repaired(g)) && CanSeeThrough(Repaired(g), p) == CanSeeThrough(g, p)
  {
    assert |Repaired(g)[0]| == |g[0]|;
  }

  /**
   * The repair loop of `loadLevels`: every tile whose base is still pending
   * gets the glyph `bfsFloor` finds for it, which is always floor.
   */
  method RepairPending(level: Level)
    requires level.Valid()
    modifies level`tiles
    ensures level.Valid() && level.tiles == Repaired(old(level.tiles))
  {
    ghost var g0 := level.tiles;
    var y := 0;
    while y < |level.tiles|
      invariant level.Valid() && |level.tiles| == |g0| && 0 <= y <= |g0|
      invariant forall i :: 0 <= i < |g0| ==> level.tiles[i] == if i < y then Repaired(g0)[i] else g0[i]
    {
      RepairRow(level, y, g0);
      y := y + 1;
    }
    assert level.tiles == Repaired(g0);
  }

  /** The inner loop of the repair pass, over row `y`. */
  method RepairRow(level: Level, y: nat, ghost g0: Grid)
    requires level.Valid() && |level.tiles| == |g0| && y < |g0|
    requires level.tiles[y] == g0[y] && |g0[y]| == |g0[0]|
    modifies level`tiles
    ensures level.Valid() && |level.tiles| == |g0|
    ensures level.tiles == old(level.tiles)[y := Repaired(g0)[y]]
  {
    ghost var t0 := level.tiles;
    var x := 0;
    while x < |level.tiles[y]|
      invariant level.Valid() && |level.tiles| == |t0| && level.tiles == t0[y := level.tiles[y]]
      invariant |level.tiles[y]| == |g0[y]| && 0 <= x <= |g0[y]|
      invariant forall i :: 0 <= i < |g0[y]| ==> level.tiles[y][i] == if i < x then RepairTile(g0[y][i]) else g0[y][i]
    {
      var tile := level.tiles[y][x];
      if tile.glyph == Pending {
        var floor := BfsFloor(level, Pos(x, y));
        level.tiles := level.tiles[y := level.tiles[y][x := tile.(glyph := floor)]];
      }
      x := x + 1;
    }
    assert level.tiles[y] == Repaired(g0)[y];
  }

  // ---------------------------------------------------------------------
  // One level

  /**
   * `loadLevels` for one map text: decode, place the player template and
   * the monsters, repair the pending tiles, and run the first sight
   * computation. An invalid glyph is fatal. The map has at least one line,
   * and every ray of that first sight computation stays on the map (the
   * source indexes the map unchecked there).
   */
  method LoadLevel(lines: seq<string>) returns (r: Result<Level, string>)
    requires |lines| > 0
    requires AllValid(lines) ==> SightSafe(Repaired(DecodeGrid(lines)), StartPos(lines), 7)
    ensures r.Failure? <==> !AllValid(lines)
    ensures r.Success? ==> fresh(r.value) && fresh(r.value.events) && r.value.Valid()
    ensures r.Success? ==>
      r.value.player == Dralanor(StartPos(lines)) &&
      SpawnedMonsters(lines, |lines|, r.value.monsters) &&
      r.value.portals == map[] && r.value.eventPos == 0 && r.value.lastEvent == MoveEvent
    ensures r.Success? ==> var g := Repaired(DecodeGrid(lines));
      r.value.tiles == Lit(g, Lights(g, StartPos(lines), Disk(StartPos(lines), 7)))
  {
    var d := DecodeMap(lines);
    if d.Failure? {
      return Failure(d.error);
    }
    var decoded := d.value;
    SpawnedConsistent(lines, decoded.monsters);
    var level := new Level(decoded.grid, Dralanor(decoded.player), decoded.monsters);
    RepairPending(level);
    LineOfSight(level);
    r := Success(level);
  }

  // ---------------------------------------------------------------------
  // The world file

  predicate IsDigit(c: char)
  {
    '0' <= c <= '9'
  }

  predicate AllDigits(s: string)
  {
    forall i :: 0 <= i < |s| ==> IsDigit(s[i])
  }

  /** The value of a string of decimal digits, most significant first. */
  function DigitsValue(s: string): nat
    requires AllDigits(s)
  {
    if s == [] then 0 else 10 * DigitsValue(s[..|s| - 1]) + DigitValue(s[|s| - 1])
  }

  function DigitValue(c: char): nat
    requires IsDigit(c)
  {
    c as int - '0' as int
  }

  const Int64Min: int := -0x8000_0000_0000_0000
  const Int64Max: int := 0x7fff_ffff_ffff_ffff

  /**
   * `strconv.ParseInt(s, 10, 64)`: an optional sign and at least one decimal
   * digit, nothing else, and a value that fits 64 bits.
   */
  function ParseInt(s: string): (r: Result<int, string>)
    ensures r.Success? ==> Int64Min <= r.value <= Int64Max
    ensures r.Success? ==> |s| > 0 && (IsDigit(s[0]) || s[0] == '+' || s[0] == '-')
    ensures s == [] ==> r.Failure?
  {
    var neg := |s| > 0 && s[0] == '-';
    var digits := if |s| > 0 && (s[0] == '+' || s[0] == '-') then s[1..] else s;
    if digits == [] || !AllDigits(digits) then Failure("invalid syntax")
    else
      var n: int := DigitsValue(digits);
      var v := if neg then -n else n;
      if v < Int64Min || v > Int64Max then Failure("value out of range") else Success(v)
  }

  lemma {:induction false} NatToStringDigits(n: nat)
    ensures AllDigits(NatToString(n))
    ensures DigitsValue(NatToString(n)) == n
  {
    var s := NatToString(n);
    DigitCharValue(n % 10);
    if n >= 10 {
      NatToStringDigits(n / 10);
      assert s == NatToString(n / 10) + [DigitChar(n % 10)];
      assert s[..|s| - 1] == NatToString(n / 10);
      assert DigitsValue(s) == 10 * (n / 10) + n % 10;
    } else {
      assert s == [DigitChar(n)];
      assert s[..0] == [];
    }
  }

  lemma DigitCharValue(d: nat)
    requires d < 10
    ensures IsDigit(DigitChar(d)) && DigitValue(DigitChar(d)) == d
  {
  }

  /** `strconv.ParseInt` of the digits of a natural number gives its value, when it is in range. */
  lemma ParseIntDigits(s: string, neg: bool)
    requires s != [] && AllDigits(s)
    requires Int64Min <= (if neg then -(DigitsValue(s) as int) else DigitsValue(s)) <= Int64Max
    ensures ParseInt(if neg then "-" + s else s) == Success(if neg then -(DigitsValue(s) as int) else DigitsValue(s))
  {
    assert IsDigit(s[0]);
    if neg {
      assert ("-" + s)[1..] == s;
    }
  }

  /** Reading back the decimal text `strconv.Itoa` writes gives the number again, for every 64-bit value. */
  lemma ParseIntRoundTrip(n: int)
    requires Int64Min <= n <= Int64Max
    ensures ParseInt(IntToString(n)) == Success(n)
  {
    var m: nat := if n < 0 then -n else n;
    NatToStringDigits(m);
    ParseIntDigits(NatToString(m), n < 0);
  }

  /** One portal line of the world file, by level name. */
  datatype Portal = Portal(from: string, at: Pos, to: string, dest: Pos)

  /**
   * The interpretation of one portal row: the level holding the portal, the
   * portal's X and Y, the destination level and the destination's X and Y.
   * A missing field, an unknown level name or a bad number is fatal.
   */
  function ParsePortalRow(levels: map<string, Level>, row: seq<string>): (r: Result<Portal, string>)
    ensures r.Success? <==>
      |row| >= 6 && row[0] in levels && row[3] in levels &&
      ParseInt(row[1]).Success? && ParseInt(row[2]).Success? && ParseInt(row[4]).Success? && ParseInt(row[5]).Success?
    ensures r.Success? ==> r.value == Portal(row[0], Pos(ParseInt(row[1]).value, ParseInt(row[2]).value),
      row[3], Pos(ParseInt(row[4]).value, ParseInt(row[5]).value))
  {
    if |row| < 1 || row[0] !in levels then Failure("Couldn't find level name 1 in the world file")
    else if |row| < 2 then Failure("index out of range")
    else match ParseInt(row[1])
      case Failure(e) => Failure(e)
      case Success(x) =>
        if |row| < 3 then Failure("index out of range")
        else match ParseInt(row[2])
          case Failure(e) => Failure(e)
          case Success(y) =>
            if |row| < 4 || row[3] !in levels then Failure("Couldn't find level name 2 in the world file")
            else if |row| < 5 then Failure("index out of range")
            else match ParseInt(row[4])
              case Failure(e) => Failure(e)
              case Success(x2) =>
                if |row| < 6 then Failure("index out of range")
                else match ParseInt(row[5])
                  case Failure(e) => Failure(e)
                  case Success(y2) => Success(Portal(row[0], Pos(x, y), row[3], Pos(x2, y2)))
  }

  /** Every row among `rows` is an accepted portal row. */
  predicate PortalRowsParse(levels: map<string, Level>, rows: seq<seq<string>>)
  {
    forall k :: 0 <= k < |rows| ==> ParsePortalRow(levels, rows[k]).Success?
  }

  /**
   * The portals the rows `rows` put on level `l`, a later row for the same
   * position winning. A row that is not accepted adds nothing; the source
   * stops at such a row, so it matters only when every row is accepted.
   */
  function PortalsOf(levels: map<string, Level>, rows: seq<seq<string>>, l: Level): map<Pos, LevelPos>
  {
    if rows == [] then map[]
    else AfterRow(levels, ParsePortalRow(levels, rows[|rows| - 1]), l, PortalsOf(levels, rows[..|rows| - 1], l))
  }

  /** The portals after row `k` of the world file are those before it, updated by that row. */
  lemma PortalsOfStep(levels: map<string, Level>, rows: seq<seq<string>>, k: nat, l: Level)
    requires 1 <= k < |rows|
    ensures PortalsOf(levels, rows[1..k + 1], l) == AfterRow(levels, ParsePortalRow(levels, rows[k]), l, PortalsOf(levels, rows[1..k], l))
  {
    var rs := rows[1..k + 1];
    assert rs[..k - 1] == rows[1..k];
    assert rs[k - 1] == rows[k];
    assert PortalsOf(levels, rs, l) == AfterRow(levels, ParsePortalRow(levels, rs[k - 1]), l, PortalsOf(levels, rs[..k - 1], l));
  }

  /** One more accepted row keeps all the rows so far accepted. */
  lemma RowsParseStep(levels: map<string, Level>, rows: seq<seq<string>>, k: nat)
    requires 1 <= k < |rows| && PortalRowsParse(levels, rows[1..k]) && ParsePortalRow(levels, rows[k]).Success?
    ensures PortalRowsParse(levels, rows[1..k + 1])
  {
    var rs := rows[1..k + 1];
    forall j | 0 <= j < k
      ensures ParsePortalRow(levels, rs[j]).Success?
    {
      if j < k - 1 {
        assert rs[j] == rows[1..k][j];
      } else {
        assert rs[j] == rows[k];
      }
    }
  }

  lemma MapUnionUpdate(a: map<Pos, LevelPos>, b: map<Pos, LevelPos>, k: Pos, v: LevelPos)
    ensures (a + b)[k := v] == a + b[k := v]
  {
  }

  /** The portals of level `l` after one interpreted row: the row's portal is added when it is on `l`. */
  function AfterRow(levels: map<string, Level>, r: Result<Portal, string>, l: Level, portals: map<Pos, LevelPos>): map<Pos, LevelPos>
    requires r.Success? ==> r.value.to in levels && r.value.from in levels
  {
    if r.Success? && l == levels[r.value.from] then portals[r.value.at := LevelPos(levels[r.value.to], r.value.dest)]
    else portals
  }

  /** `PortalsOfStep` on top of the portals a level had before the world file. */
  lemma PortalsStepOnto(levels: map<string, Level>, rows: seq<seq<string>>, k: nat, l: Level, base: map<Pos, LevelPos>)
    requires 1 <= k < |rows|
    ensures base + PortalsOf(levels, rows[1..k + 1], l) ==
      AfterRow(levels, ParsePortalRow(levels, rows[k]), l, base + PortalsOf(levels, rows[1..k], l))
  {
    PortalsOfStep(levels, rows, k, l);
    var r := ParsePortalRow(levels, rows[k]);
    if r.Success? && l == levels[r.value.from] {
      MapUnionUpdate(base, PortalsOf(levels, rows[1..k], l), r.value.at, LevelPos(levels[r.value.to], r.value.dest));
    }
  }

  /**
   * One iteration of `loadWorldFile`'s loop: the row is interpreted, and when
   * it is accepted its portal is set on the level it names. No other level
   * changes, and no other field.
   */
  method AddPortalRow(levels: map<string, Level>, row: seq<string>) returns (r: Result<Portal, string>)
    modifies levels.Values
    ensures r == ParsePortalRow(levels, row)
    ensures forall l | l in levels.Values :: l.portals == AfterRow(levels, r, l, old(l.portals))
    ensures forall l | l in levels.Values :: unchanged(l`tiles, l`player, l`monsters, l`eventPos, l`lastEvent)
  {
    r := ParsePortalRow(levels, row);
    if r.Success? {
      levels[r.value.from].SetPortal(r.value.at, LevelPos(levels[r.value.to], r.value.dest));
    }
  }

  /** Whether the world rows are accepted: a first row naming the current level, then portal rows. */
  predicate WorldAccepted(levels: map<string, Level>, rows: seq<seq<string>>)
  {
    |rows| > 0 && |rows[0]| > 0 && rows[0][0] in levels && PortalRowsParse(levels, rows[1..])
  }

  /**
   * The loop of `loadWorldFile` over the portal rows, from the second row
   * on: each accepted row sets its portal; the first rejected row stops the
   * loop with its error.
   */
  method AddPortalRows(levels: map<string, Level>, rows: seq<seq<string>>) returns (err: Option<string>)
    requires |rows| > 0
    modifies levels.Values
    ensures err.None? <==> PortalRowsParse(levels, rows[1..])
    ensures err.None? ==> forall l :: l in levels.Values ==> l.portals == old(l.portals) + PortalsOf(levels, rows[1..], l)
    ensures forall l | l in levels.Values :: unchanged(l`tiles, l`player, l`monsters, l`eventPos, l`lastEvent)
  {
    var k := 1;
    while k < |rows|
      invariant 1 <= k <= |rows| && PortalRowsParse(levels, rows[1..k])
      invariant forall l :: l in levels.Values ==> l.portals == old(l.portals) + PortalsOf(levels, rows[1..k], l)
      invariant forall l | l in levels.Values :: unchanged(l`tiles, l`player, l`monsters, l`eventPos, l`lastEvent)
    {
      label Pre:
      var parsed := AddPortalRow(levels, rows[k]);
      if parsed.Failure? {
        assert !PortalRowsParse(levels, rows[1..]) by {
          assert rows[1..][k - 1] == rows[k];
        }
        return Some(parsed.error);
      }
      RowsParseStep(levels, rows, k);
      forall l | l in levels.Values
        ensures l.portals == old(l.portals) + PortalsOf(levels, rows[1..k + 1], l)
      {
        PortalsStepOnto(levels, rows, k, l, old(l.portals));
        assert old@Pre(l.portals) == old(l.portals) + PortalsOf(levels, rows[1..k], l);
        assert l.portals == AfterRow(levels, parsed, l, old@Pre(l.portals));
      }
      k := k + 1;
    }
    assert rows[1..k] == rows[1..];
    err := None;
  }

  /**
   * `loadWorldFile` on the rows of the world file: the first row names the
   * current level, every later row adds a portal to the level it names.
   * Without a first row there is no current level, which the source's
   * caller dereferences; that is fatal too.
   */
  method LoadWorld(levels: map<string, Level>, rows: seq<seq<string>>) returns (r: Result<Level, string>)
    modifies levels.Values
    ensures r.Success? <==> WorldAccepted(levels, rows)
    ensures r.Success? ==> r.value == levels[rows[0][0]]
    ensures r.Success? ==> forall l :: l in levels.Values ==> l.portals == old(l.portals) + PortalsOf(levels, rows[1..], l)
    ensures forall l | l in levels.Values :: unchanged(l`tiles, l`player, l`monsters, l`eventPos, l`lastEvent)
  {
    if |rows| == 0 {
      return Failure("no current level");
    }
    if |rows[0]| == 0 || rows[0][0] !in levels {
      return Failure("Couldn't find current level name in the world file");
    }
    var current := levels[rows[0][0]];
    var err := AddPortalRows(levels, rows);
    if err.Some? {
      return Failure(err.value);
    }
    r := Success(current);
  }
}
