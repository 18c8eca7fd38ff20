/**
 * The `Game` object of rpg/game/game.go and the player's side of a turn:
 * `handleInput` turns a direction key into `resolveMovement` on the
 * neighbouring tile, which attacks a monster standing there, walks onto a
 * walkable tile (`Move`, which may take a portal to another level) or tries
 * to open a door (`checkDoor`); closing a window drops its level channel.
 */
module World {
  import opened Wrappers
  import opened Dungeon
  import opened Levels
  import opened Vision

  // ---------------------------------------------------------------------
  // Tile flags over time

  /** `Visible` never goes back from true to false between two grids of the same shape. */
  predicate VisibleKept(g: Grid, h: Grid)
  {
    |g| == |h| &&
    (forall y :: 0 <= y < |g| ==> |g[y]| == |h[y]|) &&
    (forall y, x :: 0 <= y < |g| && 0 <= x < |g[y]| && g[y][x].visible ==> h[y][x].visible)
  }

  /** The grid with every `Visible` flag cleared. */
  function Cleared(g: Grid): (h: Grid)
    ensures |h| == |g| && forall y :: 0 <= y < |g| ==> |h[y]| == |g[y]|
    ensures forall y, x :: 0 <= y < |g| && 0 <= x < |g[y]| ==> h[y][x] == g[y][x].(visible := false)
  {
    seq(|g|, y requires 0 <= y < |g| => seq(|g[y]|, x requires 0 <= x < |g[y]| => g[y][x].(visible := false)))
  }

  /** Clearing keeps the terrain and every `Seen` flag, and leaves nothing visible. */
  lemma ClearedKeeps(g: Grid)
    ensures SameTerrain(g, Cleared(g)) && SeenKept(g, Cleared(g))
    ensures forall y, x :: 0 <= y < |g| && 0 <= x < |g[y]| ==> !Cleared(g)[y][x].visible
  {
  }

  /** The grid with the overlay at `pos` turned to an open door. */
  function Opened(g: Grid, pos: Pos): (h: Grid)
    requires WellFormed(g) && InRange(g, pos)
  {
    g[pos.y := g[pos.y][pos.x := g[pos.y][pos.x].(overlay := OpenDoor)]]
  }

  /**
   * Opening a door changes one overlay and nothing else: the map keeps its
   * shape and every flag, and the tile is no longer a closed door, so it is
   * transparent unless its base is wall or blank.
   */
  lemma OpenedChangesOneOverlay(g: Grid, pos: Pos)
    requires WellFormed(g) && InRange(g, pos)
    ensures var h := Opened(g, pos);
      WellFormed(h) && SeenKept(g, h) && VisibleKept(g, h) &&
      (forall y, x :: 0 <= y < |g| && 0 <= x < |g[y]| && Pos(x, y) != pos ==> h[y][x] == g[y][x]) &&
      h[pos.y][pos.x].(overlay := g[pos.y][pos.x].overlay) == g[pos.y][pos.x] &&
      h[pos.y][pos.x].overlay == OpenDoor &&
      (CanSeeThrough(h, pos) <==> g[pos.y][pos.x].glyph != StoneWall && g[pos.y][pos.x].glyph != Blank)
  {
    var h := Opened(g, pos);
    assert |h[0]| == |g[0]|;
  }

  /** The Go loops that clear every `Visible` flag before a move's sight computation. */
  method ClearVisible(level: Level)
    requires level.Valid()
    modifies level`tiles
    ensures level.Valid() && level.tiles == Cleared(old(level.tiles))
  {
    ghost var g0 := level.tiles;
    var y := 0;
    while y < |level.tiles|
      invariant level.Valid() && |level.tiles| == |g0| && 0 <= y <= |g0|
      invariant forall i :: 0 <= i < |g0| ==> level.tiles[i] == if i < y then Cleared(g0)[i] else g0[i]
    {
      ghost var t0 := level.tiles;
      var x := 0;
      while x < |level.tiles[y]|
        invariant level.Valid() && |level.tiles| == |g0| && level.tiles == t0[y := level.tiles[y]]
        invariant |level.tiles[y]| == |g0[y]| && 0 <= x <= |g0[y]|
        invariant forall i :: 0 <= i < |g0[y]| ==> level.tiles[y][i] == if i < x then g0[y][i].(visible := false) else g0[y][i]
      {
        level.tiles := level.tiles[y := level.tiles[y][x := level.tiles[y][x].(visible := false)]];
        x := x + 1;
      }
      assert level.tiles[y] == Cleared(g0)[y];
      y := y + 1;
    }
    assert level.tiles == Cleared(g0);
  }

  // ---------------------------------------------------------------------
  // checkDoor

  /** What `checkDoor` does to a level, stated between the states before and after. */
  twostate predicate DoorChecked(level: Level, pos: Pos)
    requires old(level.Valid()) && InRange(old(level.tiles), pos)
    reads level
  {
    var g := old(level.tiles);
    var c := old(level.player);
    if g[pos.y][pos.x].overlay == ClosedDoor then
      var h := Opened(g, pos);
      level.tiles == Lit(h, Lights(h, c.pos, Disk(c.pos, c.sightRange))) && level.lastEvent == DoorOpen
    else
      level.tiles == g && level.lastEvent == old(level.lastEvent)
  }

  /** The precondition of `checkDoor`: on the map, and a door it opens lets every ray of the new sight computation stay on the map. */
  ghost predicate DoorSafe(level: Level, pos: Pos)
    reads level
  {
    level.Valid() && InRange(level.tiles, pos) &&
    (level.tiles[pos.y][pos.x].overlay == ClosedDoor ==>
       SightSafe(Opened(level.tiles, pos), level.player.pos, level.player.sightRange))
  }

  /**
   * `checkDoor`: a closed door at `pos` is opened, the event is recorded and
   * the sight is recomputed on top of the current flags; any other tile is
   * left alone. Afterwards the tile is no closed door, so a second call does
   * nothing, and no `Seen` or `Visible` flag was cleared.
   */
  method CheckDoor(level: Level, pos: Pos)
    requires DoorSafe(level, pos)
    modifies level`tiles, level`lastEvent
    ensures level.Valid() && DoorChecked(level, pos)
    ensures level.tiles[pos.y][pos.x].overlay != ClosedDoor
    ensures SeenKept(old(level.tiles), level.tiles) && VisibleKept(old(level.tiles), level.tiles)
  {
    var t := level.tiles[pos.y][pos.x];
    if t.overlay == ClosedDoor {
      ghost var g := level.tiles;
      OpenedChangesOneOverlay(g, pos);
      level.tiles := level.tiles[pos.y := level.tiles[pos.y][pos.x := t.(overlay := OpenDoor)]];
      level.lastEvent := DoorOpen;
      ghost var h := level.tiles;
      LineOfSight(level);
      LitOnlyRaises(h, Lights(h, level.player.pos, Disk(level.player.pos, level.player.sightRange)));
    }
  }

  // ---------------------------------------------------------------------
  // The game

  /** The keys `handleInput` reacts to (`None` and `Search` do nothing; `QuitGame` is handled by the game loop). */
  datatype InputType = NoInput | Up | Down | Left | Right | QuitGame | CloseWindow | SearchKey

  /** An input event and the window's level channel, here an opaque channel identity. */
  datatype Input = Input(kind: InputType, levelChannel: nat)

  /** The tile a direction key asks to move to; no tile for the other keys. */
  function Target(kind: InputType, p: Pos): (t: Pos)
    requires kind == Up || kind == Down || kind == Left || kind == Right
    ensures Adjacent(p, t)
    ensures kind == Up ==> t == Pos(p.x, p.y - 1)
    ensures kind == Down ==> t == Pos(p.x, p.y + 1)
    ensures kind == Left ==> t == Pos(p.x - 1, p.y)
    ensures kind == Right ==> t == Pos(p.x + 1, p.y)
  {
    match kind
    case Up => Pos(p.x, p.y - 1)
    case Down => Pos(p.x, p.y + 1)
    case Left => Pos(p.x - 1, p.y)
    case Right => Pos(p.x + 1, p.y)
  }

  /**
   * The window-list removal of `handleInput`: drop the first channel equal
   * to `c`, or the first channel when none is. The source slices with
   * `chanIndex+1`, which is out of range on an empty list; that is `None`.
   */
  function RemoveChannel(chans: seq<nat>, c: nat): (r: Option<seq<nat>>)
    ensures r.None? <==> chans == []
    ensures r.Some? ==>
      |r.value| == |chans| - 1 &&
      forall k :: 0 <= k < |r.value| ==> r.value[k] == chans[if k < FirstIndex(chans, c) then k else k + 1]
  {
    if chans == [] then None
    else
      var i := FirstIndex(chans, c);
      Some(chans[..i] + chans[i + 1..])
  }

  function FirstIndex(chans: seq<nat>, c: nat): (i: nat)
    requires chans != []
    ensures i < |chans| && forall k :: 0 <= k < i ==> chans[k] != c
    ensures c in chans ==> chans[i] == c
    ensures c !in chans ==> i == 0
  {
    if c !in chans then 0
    else if chans[0] == c then 0
    else 1 + FirstIndex(chans[1..], c)
  }

  /** Removal takes out exactly one occurrence of the closed channel, or the first channel when it is absent, and keeps the order of the rest. */
  lemma RemoveChannelRemovesOne(chans: seq<nat>, c: nat)
    ensures RemoveChannel(chans, c).None? <==> chans == []
    ensures chans != [] ==>
      var r := RemoveChannel(chans, c).value;
      |r| == |chans| - 1 &&
      (c in chans ==> multiset(r) == multiset(chans) - multiset{c}) &&
      (c !in chans ==> r == chans[1..])
  {
    if chans != [] {
      var i := FirstIndex(chans, c);
      assert chans == chans[..i] + [chans[i]] + chans[i + 1..];
      assert multiset(chans) == multiset(chans[..i]) + multiset{chans[i]} + multiset(chans[i + 1..]);
    }
  }

  /** The level a move onto `to` ends on: the portal's destination, or `level` itself. */
  function Destination(level: Level, to: Pos): Level
    reads level
  {
    if to in level.portals then level.portals[to].level else level
  }

  /** The precondition of `resolveMovement(pos)`: whatever branch runs, the tiles it indexes and the rays it casts stay on the map. */
  ghost predicate MoveSafe(level: Level, pos: Pos)
    reads level
  {
    level.Valid() &&
    (pos !in level.monsters ==>
      if CanWalk(level.tiles, level.monsters, pos) then
        pos !in level.portals ==> SightSafe(level.tiles, pos, level.player.sightRange)
      else DoorSafe(level, pos))
  }

  class Game {
    var levels: map<string, Level>
    var currentLevel: Level
    var levelChans: seq<nat>

    /** The fields `NewGame` fills in once the levels and the world file are loaded. */
    constructor (levels: map<string, Level>, current: Level, chans: seq<nat>)
      ensures this.levels == levels && currentLevel == current && levelChans == chans
    {
      this.levels := levels;
      currentLevel := current;
      levelChans := chans;
    }

    /** What `Move(to, level)` does, stated between the states before and after. */
    twostate predicate Moved(level: Level, to: Pos)
      requires old(level.Valid())
      reads this, level, Destination(level, to)
    {
      level.portals == old(level.portals) &&
      if to in level.portals then
        var lp := level.portals[to];
        currentLevel == lp.level && lp.level.player == old(lp.level.player).(pos := lp.pos) &&
        (lp.level != level ==> level.player == old(level.player)) &&
        level.tiles == old(level.tiles) && level.lastEvent == old(level.lastEvent)
      else
        var h := Cleared(old(level.tiles));
        currentLevel == old(currentLevel) && level.player == old(level.player).(pos := to) && level.lastEvent == MoveEvent &&
        level.tiles == Lit(h, Lights(h, to, Disk(to, old(level.player.sightRange))))
    }

    /**
     * `Move(to, level)`: through a portal the game switches to the portal's
     * level and puts that level's player on the portal's destination;
     * otherwise the player steps onto `to`, every `Visible` flag is cleared
     * and the sight is recomputed from the new position.
     */
    method Move(to: Pos, level: Level)
      requires level.Valid()
      requires to !in level.portals ==> SightSafe(level.tiles, to, level.player.sightRange)
      modifies this`currentLevel, level`player, level`lastEvent, level`tiles, Destination(level, to)`player
      ensures level.Valid() && Moved(level, to)
      ensures SeenKept(old(level.tiles), level.tiles)
      ensures levels == old(levels) && levelChans == old(levelChans)
    {
      if to in level.portals {
        var levelAndPos := level.portals[to];
        currentLevel := levelAndPos.level;
        currentLevel.player := currentLevel.player.(pos := levelAndPos.pos);
      } else {
        ghost var g := level.tiles;
        level.player := level.player.(pos := to);
        level.lastEvent := MoveEvent;
        ClearVisible(level);
        ClearedKeeps(g);
        ghost var h := level.tiles;
        LightsSameTerrain(g, h, to, Disk(to, level.player.sightRange));
        LineOfSight(level);
        LitOnlyRaises(h, Lights(h, to, Disk(to, level.player.sightRange)));
      }
    }

    /** What `resolveMovement(pos)` does to the level it starts on, stated between the states before and after. */
    twostate predicate Resolved(level: Level, pos: Pos, alive: bool)
      requires old(level.Valid())
      reads this, level, level.events, Destination(level, pos)
    {
      var mons := old(level.monsters);
      var pl := old(level.player);
      if pos in mons then
        var b := ResolveAttack(pl, mons[pos]);
        currentLevel == level && level.player == b.attacker && level.lastEvent == AttackEvent &&
        level.monsters == (if b.defender.hp <= 0 then mons - {pos} else mons[pos := b.defender]) &&
        level.tiles == old(level.tiles) &&
        level.events[..] == old(level.events[..])[old(level.eventPos) := AttackMessage(pl, b.defender)] &&
        level.eventPos == Advance(old(level.eventPos), level.events.Length) &&
        alive == (b.attacker.hp > 0)
      else if CanWalk(old(level.tiles), mons, pos) then
        Moved(level, pos) && level.monsters == mons && alive &&
        level.events[..] == old(level.events[..]) && level.eventPos == old(level.eventPos)
      else
        InRange(old(level.tiles), pos) && DoorChecked(level, pos) && currentLevel == level &&
        level.player == pl && level.monsters == mons && alive &&
        level.events[..] == old(level.events[..]) && level.eventPos == old(level.eventPos)
    }

    /**
     * `resolveMovement(pos)` on the current level: a monster at `pos` takes
     * the player's blow (and its key goes when it has no hit points left);
     * else a walkable `pos` is moved onto; else `checkDoor` runs there.
     * `alive` is false when the game ends with "DEAD".
     */
    method ResolveMovement(pos: Pos) returns (alive: bool)
      requires MoveSafe(currentLevel, pos)
      modifies this`currentLevel, currentLevel`player, currentLevel`monsters, currentLevel`eventPos,
        currentLevel.events, currentLevel`lastEvent, currentLevel`tiles, Destination(currentLevel, pos)`player
      ensures old(currentLevel).Valid() && Resolved(old(currentLevel), pos, alive)
      ensures levels == old(levels) && levelChans == old(levelChans)
    {
      var level := currentLevel;
      if pos in level.monsters {
        var monster := level.monsters[pos];
        var player, m := level.Attack(level.player, monster);
        level.player := player;
        level.monsters := level.monsters[pos := m];
        level.lastEvent := AttackEvent;
        if m.hp <= 0 {
          level.monsters := level.monsters - {m.pos};
          assert level.monsters == old(level.monsters) - {pos};
        }
        alive := level.player.hp > 0;
      } else if CanWalk(level.tiles, level.monsters, pos) {
        Move(pos, level);
        alive := true;
      } else {
        CheckDoor(level, pos);
        alive := true;
      }
    }

    /**
     * `handleInput`: a direction key resolves a movement onto the player's
     * neighbour in that direction; `CloseWindow` drops the window's channel
     * from the list; other keys do nothing. Neither of the last two touches
     * the level. `ok` is false when the game ends
     * (the player died, or the window list was already empty).
     */
    method HandleInput(input: Input) returns (ok: bool)
      requires input.kind in {Up, Down, Left, Right} ==>
        MoveSafe(currentLevel, Target(input.kind, currentLevel.player.pos))
      modifies this`currentLevel, this`levelChans, currentLevel`player, currentLevel`monsters, currentLevel`eventPos,
        currentLevel.events, currentLevel`lastEvent, currentLevel`tiles,
        if input.kind in {Up, Down, Left, Right} then {Destination(currentLevel, Target(input.kind, currentLevel.player.pos))} else {}
      ensures input.kind in {Up, Down, Left, Right} ==>
        old(currentLevel).Valid() &&
        Resolved(old(currentLevel), Target(input.kind, old(currentLevel.player.pos)), ok) &&
        levelChans == old(levelChans)
      ensures input.kind == CloseWindow ==>
        currentLevel == old(currentLevel) &&
        match RemoveChannel(old(levelChans), input.levelChannel)
        case None => !ok
        case Some(r) => ok && levelChans == r
      ensures input.kind !in {Up, Down, Left, Right, CloseWindow} ==>
        ok && currentLevel == old(currentLevel) && levelChans == old(levelChans)
      ensures input.kind !in {Up, Down, Left, Right} ==>
        unchanged(old(currentLevel), old(currentLevel).events)
      ensures levels == old(levels)
    {
      var p := currentLevel.player;
      if input.kind in {Up, Down, Left, Right} {
        var newPos := Target(input.kind, p.pos);
        ok := ResolveMovement(newPos);
      } else if input.kind == CloseWindow {
        var chanIndex := 0;
        var i := 0;
        while i < |levelChans|
          invariant 0 <= i <= |levelChans| && chanIndex == 0
          invariant forall k :: 0 <= k < i ==> levelChans[k] != input.levelChannel
        {
          if levelChans[i] == input.levelChannel {
            chanIndex := i;
            break;
          }
          i := i + 1;
        }
        if chanIndex + 1 > |levelChans| {
          ok := false;
        } else {
          assert chanIndex == FirstIndex(levelChans, input.levelChannel);
          levelChans := levelChans[..chanIndex] + levelChans[chanIndex + 1..];
          ok := true;
        }
      } else {
        ok := true;
      }
    }
  }
}
