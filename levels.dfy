/**
 * The `Level` object of rpg/game/game.go: its tile grid, player, monster and
 * portal maps, the fixed-size circular event log, and the two operations that
 * write the log, `AddEvent` and `Attack`.
 */
module Levels {
  import opened Dungeon

  /** Number of slots of the event ring (`make([]string, 10)`). */
  const EventCapacity: nat := 10

  /** A portal's destination: a level object and a position on it. */
  datatype LevelPos = LevelPos(level: Level, pos: Pos)

  class Level {
    var tiles: Grid
    var player: Character
    var monsters: map<Pos, Character>
    var portals: map<Pos, LevelPos>
    const events: array<string>
    var eventPos: int
    var lastEvent: GameEvent

    ghost predicate Valid()
      reads this
    {
      WellFormed(tiles) && 0 <= eventPos < events.Length && MonstersConsistent(monsters)
    }

    /** A level as `loadLevels` assembles it: empty event ring, no portals yet. */
    constructor (tiles: Grid, player: Character, monsters: map<Pos, Character>)
      requires WellFormed(tiles) && MonstersConsistent(monsters)
      ensures Valid() && fresh(events)
      ensures this.tiles == tiles && this.player == player && this.monsters == monsters
      ensures portals == map[] && eventPos == 0 && lastEvent == MoveEvent
      ensures events.Length == EventCapacity && forall i :: 0 <= i < events.Length ==> events[i] == ""
    {
      this.tiles := tiles;
      this.player := player;
      this.monsters := monsters;
      portals := map[];
      events := new string[EventCapacity](_ => "");
      eventPos := 0;
      lastEvent := MoveEvent;
    }

    /**
     * Writes `event` into the slot at the cursor and advances the cursor,
     * wrapping to 0 after the last slot; no other slot and no other field changes.
     */
    method AddEvent(event: string)
      requires Valid()
      modifies this`eventPos, events
      ensures Valid()
      ensures events[..] == old(events[..])[old(eventPos) := event]
      ensures eventPos == Advance(old(eventPos), events.Length)
    {
      events[eventPos] := event;
      eventPos := eventPos + 1;
      if eventPos == events.Length {
        eventPos := 0;
      }
    }

    /** `Portals[at] = dest`: one entry of the portal map set, nothing else changed. */
    method SetPortal(at: Pos, dest: LevelPos)
      modifies this`portals
      ensures portals == old(portals)[at := dest]
    {
      portals := portals[at := dest];
    }

    /**
     * `c1` attacks `c2`: the attacker spends one action point, the defender
     * loses the attacker's strength in hit points, and the outcome is logged.
     * The two characters are passed by pointer in the source; here their new
     * values are returned.
     */
    method Attack(c1: Character, c2: Character) returns (a: Character, d: Character)
      requires Valid()
      modifies this`eventPos, events
      ensures Valid()
      ensures Blow(a, d) == ResolveAttack(c1, c2)
      ensures events[..] == old(events[..])[old(eventPos) := AttackMessage(c1, d)]
      ensures eventPos == Advance(old(eventPos), events.Length)
    {
      var blow := ResolveAttack(c1, c2);
      a, d := blow.attacker, blow.defender;
      AddEvent(AttackMessage(c1, d));
    }
  }

  /** The cursor of a ring of `capacity` slots after one write: the next slot, wrapping to 0 after the last. */
  function Advance(cursor: int, capacity: int): (c: int)
    requires 0 <= cursor < capacity
    ensures 0 <= c < capacity && c == (cursor + 1) % capacity
  {
    if cursor + 1 == capacity then 0 else cursor + 1
  }

  /**
   * The event ring `events` with cursor `eventPos`, compared with `events0`
   * and `pos0` before: `msg` written at the old cursor and the cursor advanced
   * when `logged`, both unchanged otherwise.
   */
  ghost predicate RingAfter(events: seq<string>, eventPos: int, events0: seq<string>, pos0: int, logged: bool, msg: string)
  {
    if logged then
      0 <= pos0 < |events0| && events == events0[pos0 := msg] && eventPos == Advance(pos0, |events0|)
    else
      events == events0 && eventPos == pos0
  }

  /** Result of `ResolveAttack`: the two characters after one blow. */
  datatype Blow = Blow(attacker: Character, defender: Character)

  /**
   * The arithmetic of `Attack` on its own: exactly one action point off the
   * attacker, exactly the attacker's strength off the defender, nothing else.
   */
  function ResolveAttack(c1: Character, c2: Character): (b: Blow)
    ensures b.attacker.ap == c1.ap - 1.0 && b.attacker.hp == c1.hp
    ensures b.attacker.(ap := c1.ap) == c1
    ensures b.defender.hp == c2.hp - c1.strength
    ensures b.defender.(hp := c2.hp) == c2
  {
    Blow(c1.(ap := c1.ap - 1.0), c2.(hp := c2.hp - c1.strength))
  }

  /** The log line of an attack, given the attacker and the defender after the blow. */
  function AttackMessage(attacker: Character, defender: Character): string
  {
    if defender.hp > 0 then
      attacker.name + " attacked " + defender.name + " for " + IntToString(attacker.strength)
    else
      attacker.name + " killed " + defender.name
  }

  /** A kill is logged exactly when the defender ends with no hit points left. */
  lemma AttackMessageKind(attacker: Character, defender: Character)
    ensures var m := AttackMessage(attacker, defender);
      var n := |attacker.name|;
      n <= |m| && m[..n] == attacker.name &&
      (defender.hp <= 0 <==> m[n..] == " killed " + defender.name)
  {
    var m := AttackMessage(attacker, defender);
    var n := |attacker.name|;
    if defender.hp > 0 {
      var tail := " attacked " + defender.name + " for " + IntToString(attacker.strength);
      assert m == attacker.name + tail;
      assert m[n..] == tail;
      assert tail[1] == 'a';
      assert (" killed " + defender.name)[1] == 'k';
    } else {
      assert m == attacker.name + (" killed " + defender.name);
    }
  }

  function DigitChar(d: nat): char
    requires d < 10
  {
    "0123456789"[d]
  }

  /** Decimal text of a natural number, most significant digit first, no leading zeros. */
  function NatToString(n: nat): (s: string)
    ensures |s| > 0
    ensures forall i :: 0 <= i < |s| ==> '0' <= s[i] <= '9'
    ensures |s| > 1 ==> s[0] != '0'
  {
    if n < 10 then [DigitChar(n)] else NatToString(n / 10) + [DigitChar(n % 10)]
  }

  /** `strconv.Itoa`: decimal text with a leading '-' for negative numbers. */
  function IntToString(n: int): (s: string)
    ensures |s| > 0
  {
    if n < 0 then "-" + NatToString(-n) else NatToString(n)
  }
}
