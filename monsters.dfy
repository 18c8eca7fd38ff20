/**
 * The monsters of rpg/game/monsters.go: the two constructors, `Move`, which
 * relocates a monster or makes it attack the player, and `Update`, which
 * spends a monster's action points walking the A* path towards the player.
 *
 * A `*Monster` is shared between the level's monster map and the running
 * `Update`; here a monster is a `Character` value and every change to it is
 * written back under its key, which is its position.
 */
module Monsters {
  import opened Dungeon
  import opened Levels
  import opened Search

  function NewRat(pos: Pos): (m: Character)
    ensures m.pos == pos && m.name == "Rat" && m.rune == 'R'
    ensures m.hp == 50 && m.strength == 5 && m.speed == 2.0 && m.ap == 0.0 && m.sightRange == 0
  {
    Character(pos, "Rat", 'R', 50, 5, 2.0, 0.0, 0)
  }

  function NewSpider(pos: Pos): (m: Character)
    ensures m.pos == pos && m.name == "Spider" && m.rune == 'S'
    ensures m.hp == 100 && m.strength == 10 && m.speed == 1.0 && m.ap == 0.0 && m.sightRange == 0
  {
    Character(pos, "Spider", 'S', 100, 10, 1.0, 0.0, 0)
  }

  /** Go's `int(f)` for a float: truncation towards zero. */
  function Trunc(r: real): (n: int)
    ensures r >= 0.0 ==> n as real <= r < n as real + 1.0
    ensures r < 0.0 ==> n as real - 1.0 < r <= n as real
  {
    if r >= 0.0 then r.Floor else -((-r).Floor)
  }

  /** The monster map after the monster at `from` moves to the free position `to`. */
  function Relocate(monsters: map<Pos, Character>, from: Pos, to: Pos): map<Pos, Character>
    requires from in monsters
  {
    (monsters - {from})[to := monsters[from].(pos := to)]
  }

  /**
   * Relocation keeps the map's invariant (every key is its monster's
   * position, every monster alive) and its size, and changes exactly the
   * two keys involved.
   */
  lemma RelocateKeepsMap(monsters: map<Pos, Character>, from: Pos, to: Pos)
    requires MonstersConsistent(monsters) && from in monsters && to !in monsters
    ensures MonstersConsistent(Relocate(monsters, from, to))
    ensures Relocate(monsters, from, to).Keys == monsters.Keys - {from} + {to}
    ensures |Relocate(monsters, from, to)| == |monsters|
    ensures forall p :: p in monsters && p != from ==> Relocate(monsters, from, to)[p] == monsters[p]
  {
    var r := Relocate(monsters, from, to);
    assert r.Keys == monsters.Keys - {from} + {to};
    assert (monsters - {from}).Keys == monsters.Keys - {from};
    assert |monsters - {from}| == |monsters| - 1 by {
      assert |(monsters - {from}).Keys| == |monsters.Keys| - 1;
    }
  }

  /** How many steps of a path of `pathLen` positions `Update` takes with `apInt` whole action points. */
  function Steps(apInt: int, pathLen: nat): (n: nat)
    ensures n <= pathLen && (apInt <= 0 || pathLen <= 1 ==> n == 0)
    ensures apInt > 0 && pathLen > 1 ==> n == if apInt < pathLen - 1 then apInt else pathLen - 1
  {
    if apInt <= 0 || pathLen <= 1 then 0
    else if apInt < pathLen - 1 then apInt else pathLen - 1
  }

  /** One more action point is one more step exactly while path positions are left. */
  lemma StepsNext(i: nat, pathLen: nat)
    ensures Steps(i + 1, pathLen) == if Steps(i, pathLen) + 1 < pathLen then Steps(i, pathLen) + 1 else Steps(i, pathLen)
  {
  }

  /**
   * `Monster.Move`: onto a position holding neither a monster nor the
   * player the monster relocates, its key moving with it; otherwise it
   * attacks the player from where it stands (through `Level.Attack`, so the
   * blow is logged and costs the monster one action point). `dead` reports
   * the fatal end of the game: a blow that leaves the player without hit points.
   */
  method MoveMonster(level: Level, m: Character, to: Pos) returns (m': Character, dead: bool)
    requires level.Valid() && m.pos in level.monsters && level.monsters[m.pos] == m
    modifies level`monsters, level`player, level`eventPos, level.events
    ensures level.Valid() && m'.pos in level.monsters && level.monsters[m'.pos] == m'
    ensures |level.monsters| == |old(level.monsters)|
    ensures to !in old(level.monsters) && to != old(level.player.pos) ==>
      m' == m.(pos := to) && level.monsters == Relocate(old(level.monsters), m.pos, to) &&
      level.player == old(level.player) && !dead &&
      level.eventPos == old(level.eventPos) && level.events[..] == old(level.events[..])
    ensures to in old(level.monsters) || to == old(level.player.pos) ==>
      Blow(m', level.player) == ResolveAttack(m, old(level.player)) &&
      level.monsters == old(level.monsters)[m.pos := m'] &&
      level.events[..] == old(level.events[..])[old(level.eventPos) := AttackMessage(m, level.player)] &&
      level.eventPos == Advance(old(level.eventPos), level.events.Length) &&
      (dead <==> level.player.hp <= 0)
  {
    if to !in level.monsters && to != level.player.pos {
      RelocateKeepsMap(level.monsters, m.pos, to);
      level.monsters := Relocate(level.monsters, m.pos, to);
      m' := m.(pos := to);
      dead := false;
    } else {
      var player;
      m', player := level.Attack(m, level.player);
      level.player := player;
      level.monsters := level.monsters[m.pos := m'];
      dead := level.player.hp <= 0;
    }
  }

  /**
   * `Monster.Update` for the monster standing at `from`: it gains `Speed`
   * action points, then, for each whole point (truncated towards zero),
   * takes the next step of the A* path from its position to the player's
   * while the path lasts, each step costing one more point. With no path
   * the monster only keeps the points it gained.
   *
   * The path's tiles after the first hold no monster and are all distinct,
   * so the monster walks along it and strikes only from the last tile but
   * one, at the player at the path's end; after that blow no step is left.
   * The other monsters stay where they are, the player loses only hit
   * points, and the event ring gets the one blow's message.
   *
   * `path` is the path it followed, `steps` how many of its positions it
   * tried to enter, `attacks` how many of those tries were blows at the
   * player, and `mon` the monster at the end.
   */
  method Update(level: Level, from: Pos) returns (path: seq<Pos>, mon: Character, dead: bool, ghost steps: nat, ghost attacks: nat)
    requires level.Valid() && from in level.monsters
    modifies level`monsters, level`player, level`eventPos, level.events
    ensures level.Valid() && mon.pos in level.monsters && level.monsters[mon.pos] == mon
    ensures |level.monsters| == |old(level.monsters)|
    ensures var m0 := old(level.monsters)[from];
      path == [] ==> mon == m0.(ap := m0.ap + m0.speed) && !dead
    ensures path != [] ==>
      IsWalk(old(level.tiles), old(level.monsters), path, from, old(level.player.pos)) && Simple(path)
    ensures var m0 := old(level.monsters)[from];
      !dead ==> steps == Steps(Trunc(m0.ap + m0.speed), |path|)
    ensures Walking(level, old(level.monsters), old(level.player), old(level.events[..]), old(level.eventPos),
      from, path, old(level.monsters)[from], mon, steps, attacks, dead)
  {
    ghost var g0, ms0, p0, ev0, c0 := level.tiles, level.monsters, level.player, level.events[..], level.eventPos;
    ghost var m0 := level.monsters[from];
    var m := level.monsters[from];
    m := m.(ap := m.ap + m.speed);
    level.monsters := level.monsters[from := m];
    assert level.monsters == (ms0 - {from})[from := m];
    var playerPos := level.player.pos;
    var apInt := Trunc(m.ap);
    assert apInt == Trunc(m0.ap + m0.speed);
    path := Astar(level, m.pos, playerPos);
    if path != [] {
      WalkSameKeys(g0, level.monsters, ms0, path, from, playerPos);
    }
    mon, dead, steps, attacks := FollowPath(level, g0, ms0, p0, ev0, c0, from, path, m0, m, apInt);
  }

  /**
   * The `for` loop of `Update`: one try per whole action point, each taking
   * the path's next tile while one is left; a fatal blow ends the game.
   */
  method FollowPath(level: Level, ghost g0: Grid, ghost ms0: map<Pos, Character>, ghost p0: Character,
                    ghost ev0: seq<string>, ghost c0: int, from: Pos, path: seq<Pos>, ghost m0: Character,
                    m: Character, apInt: int)
    returns (mon: Character, dead: bool, ghost steps: nat, ghost attacks: nat)
    requires WellFormed(g0) && (path != [] ==> IsWalk(g0, ms0, path, from, p0.pos) && Simple(path))
    requires |level.monsters| == |ms0|
    requires Walking(level, ms0, p0, ev0, c0, from, path, m0, m, 0, 0, false)
    modifies level`monsters, level`player, level`eventPos, level.events
    ensures |level.monsters| == |ms0|
    ensures !dead ==> steps == Steps(apInt, |path|)
    ensures path == [] ==> mon == m && !dead
    ensures Walking(level, ms0, p0, ev0, c0, from, path, m0, mon, steps, attacks, dead)
  {
    dead := false;
    steps, attacks := 0, 0;
    var moveIndex := 1;
    var i := 0;
    var cur := m;
    while i < apInt
      invariant 0 <= i && (if apInt > 0 then i <= apInt else i == 0)
      invariant moveIndex == steps + 1 && steps == Steps(i, |path|)
      invariant |level.monsters| == |ms0|
      invariant Walking(level, ms0, p0, ev0, c0, from, path, m0, cur, steps, attacks, false)
      invariant path == [] ==> cur == m
    {
      StepsNext(i, |path|);
      if moveIndex < |path| {
        cur, dead, attacks := WalkOn(level, g0, ms0, p0, ev0, c0, from, path, m0, cur, moveIndex - 1, attacks);
        moveIndex := moveIndex + 1;
        steps := steps + 1;
        if dead {
          mon := cur;
          return;
        }
        assert Walking(level, ms0, p0, ev0, c0, from, path, m0, cur, steps, attacks, false);
      }
      i := i + 1;
    }
    mon := cur;
  }

  /**
   * The state of `Update`'s loop after `steps` steps along `path` with
   * `attacks` blows, against the level's monsters `ms0`, player `p0` and event
   * ring `ev0` with cursor `c0` before the turn: the level is valid and holds
   * the monster `m` under its position, and `WalkState` holds of its
   * monsters, player and ring.
   */
  ghost predicate Walking(level: Level, ms0: map<Pos, Character>, p0: Character, ev0: seq<string>, c0: int,
                          from: Pos, path: seq<Pos>, m0: Character, m: Character, steps: nat, attacks: nat, dead: bool)
    reads level, level.events
  {
    level.Valid() && m.pos in level.monsters && level.monsters[m.pos] == m &&
    WalkState(level.monsters, level.player, level.events[..], level.eventPos,
              ms0, p0, ev0, c0, from, path, m0, m, steps, attacks, dead)
  }

  /**
   * The monsters `ms`, player `pl` and ring `ev` with cursor `c` during
   * `Update`'s loop: the monster stands on the path, at most one blow was
   * struck and only from the last tile but one, the other monsters are where
   * they were, the player lost only hit points, and the ring holds the blow's
   * message. `dead` says the last blow was fatal, so its action point was not
   * taken.
   */
  ghost predicate WalkState(ms: map<Pos, Character>, pl: Character, ev: seq<string>, c: int,
                            ms0: map<Pos, Character>, p0: Character, ev0: seq<string>, c0: int,
                            from: Pos, path: seq<Pos>, m0: Character, m: Character, steps: nat, attacks: nat, dead: bool)
  {
    attacks <= steps && attacks <= 1 && (attacks == 1 ==> steps == |path| - 1) &&
    (path == [] ==> m.pos == from) &&
    (path != [] ==> steps < |path| && m.pos == path[steps - attacks]) &&
    (m.pos == from || m.pos !in ms0) &&
    ms == (ms0 - {from})[m.pos := m] &&
    m.ap == m0.ap + m0.speed - (steps + attacks - if dead then 1 else 0) as real &&
    m.(pos := m0.pos, ap := m0.ap) == m0 &&
    pl == p0.(hp := p0.hp - attacks * m0.strength) &&
    RingAfter(ev, c, ev0, c0, attacks == 1, AttackMessage(m0, pl)) &&
    (dead ==> pl.hp <= 0) && (!dead ==> attacks == 0 || pl.hp > 0)
  }

  /** The iteration of `Update`'s loop that takes the path's next tile. */
  method WalkOn(level: Level, ghost g: Grid, ghost ms0: map<Pos, Character>, ghost p0: Character, ghost ev0: seq<string>,
                ghost c0: int, from: Pos, path: seq<Pos>, ghost m0: Character, m: Character, steps: nat, ghost attacks: nat)
    returns (m': Character, dead: bool, ghost attacks': nat)
    requires WellFormed(g) && IsWalk(g, ms0, path, from, p0.pos) && Simple(path) && steps + 1 < |path|
    requires Walking(level, ms0, p0, ev0, c0, from, path, m0, m, steps, attacks, false)
    modifies level`monsters, level`player, level`eventPos, level.events
    ensures |level.monsters| == |old(level.monsters)|
    ensures Walking(level, ms0, p0, ev0, c0, from, path, m0, m', steps + 1, attacks', dead)
  {
    ghost var ms, pl, ev, c := level.monsters, level.player, level.events[..], level.eventPos;
    m', dead, attacks' := TakeStep(level, m, path[steps + 1], m0, steps, attacks, p0.hp);
    WalkStateNext(g, ms0, p0, ev0, c0, from, path, m0, m, steps, attacks, ms, pl, ev, c,
                  m', dead, attacks', level.monsters, level.player, level.events[..], level.eventPos);
  }

  /**
   * One step of `Update`'s loop keeps `WalkState`: the step `TakeStep`
   * describes, onto the path's next tile, from a state with no blow yet.
   */
  lemma WalkStateNext(g: Grid, ms0: map<Pos, Character>, p0: Character, ev0: seq<string>, c0: int,
                      from: Pos, path: seq<Pos>, m0: Character, m: Character, steps: nat, attacks: nat,
                      ms: map<Pos, Character>, pl: Character, ev: seq<string>, c: int,
                      m': Character, dead: bool, attacks': nat,
                      ms': map<Pos, Character>, pl': Character, ev': seq<string>, c': int)
    requires WellFormed(g) && IsWalk(g, ms0, path, from, p0.pos) && Simple(path) && steps + 1 < |path|
    requires WalkState(ms, pl, ev, c, ms0, p0, ev0, c0, from, path, m0, m, steps, attacks, false)
    requires var hit := path[steps + 1] in ms || path[steps + 1] == pl.pos;
      attacks' == (if hit then attacks + 1 else attacks) && m'.pos == (if hit then m.pos else path[steps + 1]) &&
      RingAfter(ev', c', ev, c, hit, AttackMessage(m0, pl'))
    requires ms' == (ms - {m.pos})[m'.pos := m']
    requires m'.ap == m0.ap + m0.speed - (steps + 1 + attacks' - if dead then 1 else 0) as real
    requires m'.(pos := m0.pos, ap := m0.ap) == m0
    requires pl' == pl.(hp := p0.hp - attacks' * m0.strength)
    requires (dead ==> pl'.hp <= 0) && (!dead ==> attacks' == 0 || pl'.hp > 0)
    ensures WalkState(ms', pl', ev', c', ms0, p0, ev0, c0, from, path, m0, m', steps + 1, attacks', dead)
  {
    NextOnWalk(g, ms0, path, from, p0.pos, steps, m);
    Rekey(ms0 - {from}, m.pos, m, m'.pos, m');
  }

  /**
   * Along a simple walk from `from` to `goal` over tiles free of monsters,
   * once the monster has moved from `from` to the walk's `k`-th tile, the next
   * tile still holds no monster, and it is `goal` exactly when it ends the walk.
   */
  lemma NextOnWalk(g: Grid, ms: map<Pos, Character>, path: seq<Pos>, from: Pos, goal: Pos, k: nat, mon: Character)
    requires WellFormed(g) && IsWalk(g, ms, path, from, goal) && Simple(path) && k + 1 < |path|
    ensures path[k + 1] !in (ms - {from})[path[k] := mon]
    ensures path[k + 1] == goal <==> k + 2 == |path|
    ensures path[k] == from || path[k] !in ms
  {
    WalkIsSightWithoutMonster(g, ms, path[k + 1]);
    WalkIsSightWithoutMonster(g, ms, path[k]);
    assert path[k + 1] != path[0] && path[k + 1] != path[k];
    if k + 2 != |path| {
      assert path[k + 1] != path[|path| - 1];
    }
  }

  /** Moving the entry at a key that was not there before the move to `t`. */
  lemma Rekey(ms: map<Pos, Character>, k: Pos, a: Character, t: Pos, b: Character)
    requires k !in ms
    ensures (ms[k := a] - {k})[t := b] == ms[t := b]
  {
    assert ms[k := a] - {k} == ms;
  }

  /**
   * `StepAlong` with the loop's accounting: after `steps` steps with
   * `attacks` blows among them, one more step keeps the monster's action
   * points and the player's hit points in line with the counts, and a blow
   * is logged under the monster's name.
   */
  method TakeStep(level: Level, m: Character, to: Pos, ghost m0: Character, ghost steps: nat, ghost attacks: nat, ghost hp0: int)
    returns (m': Character, dead: bool, ghost attacks': nat)
    requires level.Valid() && m.pos in level.monsters && level.monsters[m.pos] == m
    requires m.ap == m0.ap + m0.speed - (steps + attacks) as real && m.(pos := m0.pos, ap := m0.ap) == m0
    requires level.player.hp == hp0 - attacks * m0.strength && (attacks == 0 || level.player.hp > 0)
    modifies level`monsters, level`player, level`eventPos, level.events
    ensures level.Valid() && m'.pos in level.monsters && level.monsters[m'.pos] == m'
    ensures |level.monsters| == |old(level.monsters)|
    ensures var hit := to in old(level.monsters) || to == old(level.player.pos);
      attacks' == (if hit then attacks + 1 else attacks) && m'.pos == (if hit then m.pos else to) &&
      RingAfter(level.events[..], level.eventPos, old(level.events[..]), old(level.eventPos), hit, AttackMessage(m0, level.player))
    ensures level.monsters == (old(level.monsters) - {m.pos})[m'.pos := m']
    ensures m'.ap == m0.ap + m0.speed - (steps + 1 + attacks' - if dead then 1 else 0) as real
    ensures m'.(pos := m0.pos, ap := m0.ap) == m0
    ensures level.player == old(level.player).(hp := hp0 - attacks' * m0.strength)
    ensures dead ==> level.player.hp <= 0
    ensures !dead ==> attacks' == 0 || level.player.hp > 0
  {
    ghost var pl := level.player;
    ghost var hit;
    m', dead, hit := StepAlong(level, m, to);
    attacks' := if hit then attacks + 1 else attacks;
    StepAccount(m, m', m0, pl, level.player, steps, attacks, attacks', hp0, hit, dead);
  }

  /** The counting behind `TakeStep`, on the values before and after `StepAlong`. */
  lemma StepAccount(m: Character, m': Character, m0: Character, pl: Character, pl': Character,
                    steps: nat, attacks: nat, attacks': nat, hp0: int, hit: bool, dead: bool)
    requires m.ap == m0.ap + m0.speed - (steps + attacks) as real && m.(pos := m0.pos, ap := m0.ap) == m0
    requires pl.hp == hp0 - attacks * m0.strength && (attacks == 0 || pl.hp > 0)
    requires attacks' == if hit then attacks + 1 else attacks
    requires m'.(pos := m.pos, ap := m.ap) == m && m'.ap == m.ap - (if hit && !dead then 2.0 else 1.0)
    requires pl' == pl.(hp := pl.hp - if hit then m.strength else 0)
    requires (dead ==> hit && pl'.hp <= 0) && (hit && !dead ==> pl'.hp > 0)
    ensures AttackMessage(m, pl') == AttackMessage(m0, pl')
    ensures m'.ap == m0.ap + m0.speed - (steps + 1 + attacks' - if dead then 1 else 0) as real
    ensures m'.(pos := m0.pos, ap := m0.ap) == m0
    ensures pl' == pl.(hp := hp0 - attacks' * m0.strength)
    ensures (dead ==> pl'.hp <= 0) && (!dead ==> attacks' == 0 || pl'.hp > 0)
  {
    if hit {
      assert (attacks + 1) * m0.strength == attacks * m0.strength + m0.strength;
    }
  }

  /**
   * One iteration of `Update`'s loop that has a path position left: `Move`
   * onto it, then one action point off. `hit` tells whether the move was a
   * blow at the player; after a fatal blow the game ends before the point is
   * taken. The monster ends on `to` or, after a blow, where it stood; only the
   * player's hit points change, and only a blow is logged.
   */
  method StepAlong(level: Level, m: Character, to: Pos) returns (m': Character, dead: bool, ghost hit: bool)
    requires level.Valid() && m.pos in level.monsters && level.monsters[m.pos] == m
    modifies level`monsters, level`player, level`eventPos, level.events
    ensures level.Valid() && m'.pos in level.monsters && level.monsters[m'.pos] == m'
    ensures |level.monsters| == |old(level.monsters)|
    ensures hit == (to in old(level.monsters) || to == old(level.player.pos))
    ensures m'.pos == (if hit then m.pos else to)
    ensures level.monsters == (old(level.monsters) - {m.pos})[m'.pos := m']
    ensures m'.(pos := m.pos, ap := m.ap) == m
    ensures m'.ap == m.ap - (if hit && !dead then 2.0 else 1.0)
    ensures level.player == old(level.player).(hp := old(level.player.hp) - if hit then m.strength else 0)
    ensures RingAfter(level.events[..], level.eventPos, old(level.events[..]), old(level.eventPos), hit, AttackMessage(m, level.player))
    ensures dead ==> hit && level.player.hp <= 0
    ensures hit && !dead ==> level.player.hp > 0
  {
    hit := to in level.monsters || to == level.player.pos;
    ghost var ms := level.monsters;
    m', dead := MoveMonster(level, m, to);
    if hit {
      assert ms[m.pos := m'] == (ms - {m.pos})[m.pos := m'];
    } else {
      assert Relocate(ms, m.pos, to) == (ms - {m.pos})[to := m'];
    }
    if !dead {
      m' := m'.(ap := m'.ap - 1.0);
      level.monsters := level.monsters[m'.pos := m'];
    }
  }
}
