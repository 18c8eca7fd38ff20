# gameswithgo in Dafny

A verified model of the game logic in the `gameswithgo` repository. The main
part is the turn-based dungeon engine of `rpg/game`:

- the tile grid and its predicates;
- level loading from map text and the world file;
- the nearest-floor breadth-first search and the A* path search;
- Bresenham line of sight;
- combat and the circular event log;
- player movement, doors and portals;
- the monsters' turn.

Beside it are the smaller programs:

- the random expression trees of `apt`;
- the pixel routines of `balloons`;
- the click and compaction logic of `balloons2`;
- the linked story of `linearStory`;
- the command lookup of `textAdventure`;
- the bisection guesser of `guess`.

Modules, one per component:

| module | file | models |
|---|---|---|
| `Wrappers` | wrappers.dfy | `Option` and `Result` |
| `Dungeon` | dungeon.dfy | positions, glyphs, tiles and characters; `inRange`, `canWalk`, `canSeeThrough`, `getNeighbors` |
| `Levels` | levels.dfy | the `Level` class, with its tile grid, monster and portal maps, and the ten-slot event ring (an `array<string>`); `AddEvent`, `Attack`, `strconv.Itoa` |
| `Vision` | vision.dfy | `bresenham` and `lineOfSight`, as loops that mark the grid in place. They are proved against a value-level ray (`Ray`, `Touched`), a marking function (`Lit`) and the set of lit tiles (`Lights`) |
| `Search` | search.dfy | `bfsFloor` and `astar`, with the path reconstruction and its in-place reversal |
| `Load` | load.dfy | glyph decoding, padding and pending-tile repair, taken from `loadLevels`; the portal rows of `loadWorldFile`; `strconv.ParseInt` |
| `Monsters` | monsters.dfy | `NewRat`, `NewSpider`, `Monster.Move` and `Monster.Update` |
| `World` | world.dfy | the `Game` class: `Move`, `resolveMovement`, `checkDoor`, the direction keys of `handleInput` and its window-list removal |
| `Apt` | apt.dfy | expression trees, twice: `Apt` as a value (for `NodeCount`, `String` and the effect of `AddRandom`), and `AptNode`, the pointer structure that `AddRandom` changes in place |
| `Balloons` | balloons.dfy | `setPixel` and `texture.draw` on a byte buffer (`array<byte>`) |
| `Balloons2` | balloons2.dfy | `clamp`, `balloonArray.Swap`, and the flag loop and in-place compaction of `updateBalloons` |
| `LinearStory` | linear_story.dfy | the `storyPage` list: `addToEnd`, `addAfter`, `playStory` |
| `TextAdventure` | text_adventure.dfy | `addChoice` and `executeCmd` |
| `Guess` | guess.dfy | the bisection loop of `main` |

How the Go code is represented:

- Randomness, standard input and other outside inputs are parameters:
  - the `rand.Intn` draws of `AddRandom` are a function `draw` from draw number to answer;
  - the mouse hit test and the explosion timer of `balloons2` are per-balloon booleans;
  - the answers typed into `guess` are a sequence of lines, those after the line that answers "Press ENTER when ready" (guess/guess.go:17), which is read and ignored;
  - the map and world files are given as lines and rows of text.
- Go's `int(f)` conversion truncates towards zero. It is written out as `Monsters.Trunc`.
- Go's `/` on integers truncates towards zero. It is written out as `Guess.Half`.

## Model

| member | source | states |
|---|---|---|
| Dungeon.InRange | rpg/game/game.go:388-390 | `inRange`: on a well-formed grid, an in-range position indexes an existing row and column |
| Dungeon.CanSeeThrough | rpg/game/game.go:409-424 | `canSeeThrough`: a transparent tile is in range and is neither stone wall nor blank |
| Dungeon.OutOfRangeBlocks | rpg/game/game.go:388-424 | a position off the map is neither walkable nor transparent |
| Dungeon.WalkIsSightWithoutMonster | rpg/game/game.go:392-424 | `canWalk` holds exactly when `canSeeThrough` holds and no monster stands there; so every walkable tile is transparent, and transparency does not depend on the monsters |
| Dungeon.SameTerrainSameSight | rpg/game/game.go:409-424 | transparency depends only on the base and overlay glyphs, never on the `Visible`/`Seen` flags |
| Dungeon.Neighbors | rpg/game/game.go:505-527 | `getNeighbors` returns at most four positions, and a position is among them exactly when it is 4-adjacent and walkable |
| Dungeon.NeighborInRange | rpg/game/game.go:505-527 | every neighbour `getNeighbors` returns lies on the map |
| Levels.Level.constructor | rpg/game/game.go:322-328 | a new level has ten empty event slots, cursor 0 and no portals, and holds the given grid, player and monsters |
| Levels.Level.AddEvent | rpg/game/game.go:135-141 | the slot at the cursor gets the event and every other slot is unchanged; the cursor advances, wraps to 0 after the last slot and stays in range |
| Levels.Advance | rpg/game/game.go:136-140 | the cursor moves to the next slot, wrapping to 0 after the last, and stays in range: it is `(cursor + 1) mod capacity` |
| Levels.Level.SetPortal | rpg/game/game.go:276 | one entry of the portal map is set and the others are unchanged |
| Levels.Level.Attack | rpg/game/game.go:123-133 | the two characters change as `ResolveAttack` says, and exactly one event slot receives the attack's message |
| Levels.ResolveAttack | rpg/game/game.go:123-126 | the attacker loses exactly one AP and the defender exactly the attacker's strength in HP; every other field of both is unchanged |
| Levels.AttackMessageKind | rpg/game/game.go:128-132 | the log line starts with the attacker's name, and reads " killed " plus the defender's name exactly when the defender has no HP left |
| Levels.NatToString | rpg/game/game.go:129 | `strconv.Itoa` of a natural number is non-empty, all digits, with no leading zero; `Load.ParseIntRoundTrip` is its inverse |
| Levels.IntToString | rpg/game/game.go:129 | `strconv.Itoa` gives non-empty text, with a '-' sign for negative numbers |
| Vision.RayShape | rpg/game/game.go:159-222 | a ray has one tile per step along its major axis; it starts at `start` whenever `start != end`; it never contains `end`; it is empty when `start == end` |
| Vision.RayFromLength | rpg/game/game.go:179-202 | the loop from major coordinate `x` visits one tile per step left before `end.X` |
| Vision.RayFromMajor | rpg/game/game.go:179-202 | every tile a ray loop visits lies strictly on the start side of `end.X` along the major axis |
| Vision.TouchedShape | rpg/game/game.go:187-214 | the marked part of a ray is a prefix of it; every marked tile but the last is transparent; a ray cut short ends on an opaque tile |
| Vision.TouchedSameTerrain | rpg/game/game.go:189-212 | which tiles a ray marks depends only on the terrain |
| Vision.LightsSameTerrain | rpg/game/game.go:147-156 | the tiles a sight computation marks depend only on the terrain |
| Vision.LitOnlyRaises | rpg/game/game.go:187-211 | marking only sets `Visible` and `Seen`; terrain, `Seen` flags, `Visible` flags and unmarked tiles stay as they were |
| Vision.LitPlusOne | rpg/game/game.go:187-188 | marking one more tile is one tile update on top of the earlier marks |
| Vision.LitNothing | rpg/game/game.go:143-157 | marking no tiles leaves the grid unchanged |
| Vision.LitTwice | rpg/game/game.go:147-156 | marking two sets of tiles one after the other is marking their union, so the order of the rays does not matter |
| Vision.MarkTile | rpg/game/game.go:187-214 | one tile set visible and seen, nothing else changed, and the result is that tile's `canSeeThrough` |
| Vision.RayStep | rpg/game/game.go:179-220 | one loop step marks the current tile and leaves the rest of the ray for the next state |
| Vision.RayTail | rpg/game/game.go:192-219 | the error-term update moves the ray on to its next tile |
| Vision.Bresenham | rpg/game/game.go:159-222 | `bresenham` marks exactly the touched prefix of the ray from `start` to `end`, and nothing else |
| Vision.Sweep | rpg/game/game.go:175-221 | both loops (downwards and upwards along the major axis) mark exactly the touched part of the remaining ray |
| Vision.InDisk | rpg/game/game.go:147-152 | a ray target lies in the square around the player and satisfies `dx*dx + dy*dy <= dist*dist`, which is the `math.Sqrt` test on integers |
| Vision.LightsAdd | rpg/game/game.go:153 | one more ray adds exactly the tiles it touches |
| Vision.SightStep | rpg/game/game.go:153 | one `bresenham` call in `lineOfSight` adds its touched tiles to what earlier rays marked |
| Vision.LineOfSight | rpg/game/game.go:143-157 | `lineOfSight` marks exactly the tiles touched by the rays to every target of the Euclidean disk, on top of the current flags |
| Vision.SightRow | rpg/game/game.go:148-155 | the inner loop covers the targets of one row, from left to right |
| Vision.AdjacentRay | rpg/game/game.go:200-220 | the ray to a 4-neighbour is the player's tile alone |
| Vision.DiskOne | rpg/game/game.go:147-152 | with range 1 the targets are the player's tile and its four neighbours, and no diagonals |
| Vision.CrossRay | rpg/game/game.go:159-222 | every ray to one of those five targets marks the player's tile or nothing |
| Vision.SightOneMarksOnlyPlayer | rpg/game/game.go:143-222 | with sight range 1, the only tile marked is the player's own |
| Search.BfsFloor | rpg/game/game.go:529-555 | `bfsFloor` terminates and always returns `DirtFloor`, through both of its exits, while indexing only tiles on the map |
| Search.VisitNeighbors | rpg/game/game.go:547-552 | the neighbour loop queues only tiles on the map; when it marks any tile visited, the count of unvisited tiles drops |
| Search.MinIndex | rpg/game/game.go:569 | the index of an entry of least priority |
| Search.Pop | rpg/game/game.go:569 | `pop` removes one entry of least priority and keeps every other entry: `rest` plus the popped one is the old frontier |
| Search.PopKeeps | rpg/game/game.go:569-571 | after popping a tile that is not the goal, the search state is ready for relaxing that tile's neighbours |
| Search.TreeSize | rpg/game/game.go:561-565 | the search tree never has more keys than the map has tiles plus the start |
| Search.TreeRelax | rpg/game/game.go:590-599 | relaxing a walkable neighbour keeps the parent map a tree of walkable 4-steps of strictly rising cost |
| Search.DescendingRelax | rpg/game/game.go:590-599 | giving a neighbour a lower cost through the current tile keeps every parent cheaper than its child |
| Search.FrontierRelax | rpg/game/game.go:597 | pushing a relaxed neighbour keeps "every key is expanded or still queued" |
| Search.CostRelax | rpg/game/game.go:590-591 | a relaxation lowers one cost and no other |
| Search.PotentialLess | rpg/game/game.go:568-602 | a strictly lowered cost strictly lowers the search's termination measure |
| Search.RelaxStep | rpg/game/game.go:588-600 | one relaxation keeps the neighbour loop's invariant |
| Search.RelaxSkip | rpg/game/game.go:589-590 | a neighbour that does not improve is already a key |
| Search.RelaxDone | rpg/game/game.go:587-601 | once every neighbour has a cost, the popped position is expanded and the search invariant holds again |
| Search.Expand | rpg/game/game.go:587-601 | the neighbour loop keeps the search invariant, and either changes nothing or strictly lowers some cost |
| Search.RelaxNeighbor | rpg/game/game.go:588-600 | one neighbour: relaxed and pushed when its cost improves or it has none, skipped otherwise; the loop invariant is kept |
| Search.ExpandPopped | rpg/game/game.go:587-601 | after popping anything but the goal, the search invariant is kept and the costs go down, or else only the pop changed the state, so the loop ends |
| Search.Reversed | rpg/game/game.go:580-582 | element `k` of the reversal is element `n-1-k` of the original |
| Search.BackChainWalk | rpg/game/game.go:571-578 | following the parents from any key back to `start`, then reversing, gives a walk from `start` to that key |
| Search.WalkStaysInside | rpg/game/game.go:568-603 | a key set that holds `start` and is closed under walkable neighbours holds the end of every walk from `start` |
| Search.Unreachable | rpg/game/game.go:603 | so a goal outside such a set cannot be reached by any walk |
| Search.CollectChain | rpg/game/game.go:572-578 | the parent-walking loop collects exactly the parent chain from `goal` to `start` |
| Search.ReverseInPlace | rpg/game/game.go:580-582 | the swapping loop reverses the path |
| Search.Reconstruct | rpg/game/game.go:571-584 | the reconstructed path is the reversed parent chain |
| Search.BackChainSimple | rpg/game/game.go:573-578 | the chain of parents from a key back to `start` never repeats a position, and every position on it costs at most the key's cost |
| Search.ReversedSimple | rpg/game/game.go:580-582 | reversing a path with no repeated position gives one with no repeated position |
| Search.WalkSameKeys | rpg/game/game.go:392-407 | a walk stays a walk when the monsters change but their positions do not, since `canWalk` looks only at where monsters stand |
| Search.Astar | rpg/game/game.go:557-604 | a non-empty result is a walk from `start` to `goal` that never repeats a position: 4-adjacent steps, every tile after `start` walkable. The empty result (nil) means no such walk exists |
| Load.DecodeGlyph | rpg/game/game.go:336-369 | an unknown glyph fails; doors, stairs, '@', 'R' and 'S' stand on a pending base; '@', 'R' and 'S' spawn the player, a rat and a spider; no decoded tile is visible or seen |
| Load.DecodeAt | rpg/game/game.go:336-369 | one glyph is accepted exactly when it is valid, and then extends the row, the player's start and the monsters as the line loop says |
| Load.Longest | rpg/game/game.go:313-321 | the longest line's length, at least every line's length and equal to one of them (0 for no lines) |
| Load.DecodeGrid | rpg/game/game.go:326-370 | one row per line, every row as wide as the longest line; a tile holds its glyph's decoding, and a blank tile past the end of its line |
| Load.RowLast | rpg/game/game.go:357-359 | the last position of a glyph in a line, or none when it does not occur |
| Load.LastPlayerIsLast | rpg/game/game.go:334-360 | the player starts at the last '@' in reading order, and when there is none it keeps the template's (0, 0) |
| Load.Dralanor | rpg/game/game.go:283-290 | the player template: "Dralanor", '@', HP 20, strength 20, speed 1, AP 0, sight range 7 |
| Load.SpawnedStep | rpg/game/game.go:361-366 | each line's 'R' and 'S' glyphs add their monsters to those of the earlier lines |
| Load.SpawnedConsistent | rpg/game/game.go:361-366 | every spawned monster is keyed by its own position |
| Load.DecodeLine | rpg/game/game.go:335-371 | one line decodes exactly when all its glyphs are valid, into its padded row, with the player moved to the line's last '@' and one monster per 'R'/'S' |
| Load.DecodedRows | rpg/game/game.go:334-372 | rows decoded one by one make up the whole grid |
| Load.DecodeMap | rpg/game/game.go:334-372 | decoding fails exactly when some glyph is invalid; otherwise it yields the padded grid, the player's start and the spawned monsters |
| Load.Repaired | rpg/game/game.go:374-381 | after repair, every pending base is floor and nothing else has changed |
| Load.RepairedSameSight | rpg/game/game.go:374-381 | repair changes no tile's transparency |
| Load.RepairPending | rpg/game/game.go:374-381 | the repair loops leave the grid as `Repaired` says: no pending tile remains |
| Load.RepairRow | rpg/game/game.go:375-380 | the inner loop repairs one row and no other |
| Load.LoadLevel | rpg/game/game.go:322-383 | one map is fatal exactly when a glyph is invalid. Otherwise the level has the repaired grid marked by the first sight computation, the player at the last '@', the spawned monsters and an empty event ring |
| Load.ParseInt | rpg/game/game.go:251-258 | `strconv.ParseInt(s, 10, 64)` accepts only a sign and decimal digits, fails on the empty string, and returns a 64-bit value |
| Load.NatToStringDigits | rpg/game/game.go:251 | decimal text of `n` consists of digits whose value is `n` |
| Load.ParseIntRoundTrip | rpg/game/game.go:251-258 | reading back the text `strconv.Itoa` writes gives the number back, for every 64-bit value |
| Load.ParsePortalRow | rpg/game/game.go:246-276 | a portal row is accepted exactly when both level names are known and all four coordinates parse; it then gives those levels and positions |
| Load.PortalsOfStep | rpg/game/game.go:276 | each accepted row adds its portal, and a later row for the same position wins |
| Load.AddPortalRow | rpg/game/game.go:246-276 | one portal row parses as `ParsePortalRow` says, and only on success is its portal set on the level it names |
| Load.AddPortalRows | rpg/game/game.go:245-277 | the portal rows all parse exactly when no error is returned; then each level gains the portals its rows name, and nothing but `portals` changes |
| Load.LoadWorld | rpg/game/game.go:237-278 | the first row names the current level; every later row adds its portal to the level it names; an unknown name, a short row or a bad number is fatal. The levels are otherwise unchanged |
| Monsters.NewRat | rpg/game/monsters.go:9-11 | a rat: "Rat", 'R', HP 50, strength 5, speed 2, AP 0 |
| Monsters.NewSpider | rpg/game/monsters.go:13-15 | a spider: "Spider", 'S', HP 100, strength 10, speed 1, AP 0 |
| Monsters.Trunc | rpg/game/monsters.go:21 | Go's `int(f)` truncates towards zero |
| Monsters.RelocateKeepsMap | rpg/game/monsters.go:36-41 | relocation keeps "every key is its monster's position" and the map's size, and changes exactly the two keys involved |
| Monsters.Steps | rpg/game/monsters.go:25-33 | the loop takes as many steps as there are whole action points, capped at the path length minus one; with no path or no points it takes none |
| Monsters.MoveMonster | rpg/game/monsters.go:36-57 | onto a free tile that is not the player's, the monster relocates and its key moves with it, and the player and the event ring are unchanged. Otherwise it attacks the player through `Level.Attack` and stays where it is: the blow's message goes into the slot at the cursor, the cursor advances, and the player's death is reported |
| Monsters.StepAlong | rpg/game/monsters.go:27-32 | one step: a move, then one AP off, so a blow costs two AP in all. The monster ends on `to`, or where it stood after a blow; no other monster changes; the player loses the monster's strength exactly when the step was a blow, and nothing else about the player changes; only a blow writes one message into the event ring |
| Monsters.TakeStep | rpg/game/monsters.go:27-32 | after one more step, the monster's AP and the player's HP match the counts of steps and blows, with at most one blow more. The monster's new tile, the other monsters, the player's other fields and the ring are as `StepAlong` says |
| Monsters.StepAccount | rpg/game/monsters.go:29-31 | the counting of one step: AP down by one per step and one more per blow, HP down by the monster's strength per blow |
| Monsters.WalkOn | rpg/game/monsters.go:27-32 | one iteration that takes the path's next tile keeps the loop's state: the monster on the path, the other monsters in place, and the player and the ring changed only by the blow |
| Monsters.WalkStateNext | rpg/game/monsters.go:27-32 | one step onto the next tile of a simple walk, from a state with no blow yet, gives the state one step further |
| Monsters.NextOnWalk | rpg/game/monsters.go:29 | along a walk with no repeated tile, the next tile never holds a monster, and it is the player's tile exactly when it ends the path |
| Monsters.Rekey | rpg/game/monsters.go:39-40 | deleting the key just added and adding another is adding the other |
| Monsters.FollowPath | rpg/game/monsters.go:25-33 | the loop takes `Steps` steps along the path; with no path the monster is unchanged; the loop's state holds at the end |
| Monsters.Update | rpg/game/monsters.go:17-34 | the monster gains `Speed` AP and takes `Steps` steps along the A* path, one AP each (two for a blow). With no path nothing moves and the AP is kept. The path's tiles are distinct and hold no monster, so the monster walks along it and strikes at most once, only from the last tile but one. The other monsters stay where they are, the player loses hit points only for that blow, and the ring gets that blow's message. The map keeps its invariant and its size |
| World.ClearedKeeps | rpg/game/game.go:444-448 | clearing keeps the terrain and every `Seen` flag and leaves no tile visible |
| World.ClearVisible | rpg/game/game.go:444-448 | the clearing loops turn every `Visible` flag off and change nothing else |
| World.OpenedChangesOneOverlay | rpg/game/game.go:429-430 | opening a door changes that one overlay and nothing else |
| World.CheckDoor | rpg/game/game.go:426-434 | a closed door is opened, the event recorded and the sight recomputed on top of the current flags; any other tile is left alone; afterwards the tile is no closed door, so a second call does nothing, and no `Visible` or `Seen` flag is cleared |
| World.Target | rpg/game/game.go:475-490 | each direction key targets the 4-neighbour in its direction |
| World.FirstIndex | rpg/game/game.go:494-500 | the index of the first channel equal to `c`, or 0 when none is |
| World.RemoveChannel | rpg/game/game.go:494-501 | fails exactly on the empty list; otherwise one shorter, with every channel before the first match kept in place and every later one shifted down by one |
| World.RemoveChannelRemovesOne | rpg/game/game.go:494-501 | one occurrence of the closed channel goes (the first channel when it is absent), and the rest keep their order. The empty list is the fatal out-of-range slice |
| World.Game.constructor | rpg/game/game.go:30 | the game holds the loaded levels, the current level and the window channels |
| World.Game.Move | rpg/game/game.go:436-451 | through a portal, only the current level and the destination player's position change. Otherwise the player moves, every `Visible` flag is cleared and sight is recomputed from the new position. No `Seen` flag is ever cleared |
| World.Game.ResolveMovement | rpg/game/game.go:453-470 | a monster at the target takes the player's blow and its key is deleted when its HP is gone: no move, the blow's message is logged at the cursor, the cursor advances, and death is reported. Otherwise a walkable target is moved onto, and any other target goes to `checkDoor`; in both, the event ring and its cursor are unchanged |
| World.Game.HandleInput | rpg/game/game.go:472-503 | a direction key resolves a movement onto that neighbour; `CloseWindow` removes the window's channel; other keys change nothing. Neither `CloseWindow` nor another key touches the current level: its tiles, player, monsters and events stay as they were |
| Apt.Slot | apt/apt.go:42-88 | a nil child contributes no node and one nil |
| Apt.Count | apt/apt.go:26-141 | `NodeCount` gives at least one node and a non-negative nil count |
| Apt.BareCount | apt/apt.go:26-44 | a fresh node with no children counts one node and one nil per slot; a leaf counts (1, 0) |
| Apt.AddTo | apt/apt.go:35-39 | a nil slot takes the new node; a filled slot passes it down; the slot is filled afterwards |
| Apt.Add | apt/apt.go:21-117 | `AddRandom` keeps the root's kind: the root has as many child slots as before |
| Apt.AddKeepsNodes | apt/apt.go:21-117 | `AddRandom` keeps every node of the tree, each with its operator, and only fills nil slots |
| Apt.AddToKeepsNodes | apt/apt.go:35-39 | the same for a child slot: a filled slot keeps a grown child, a nil one takes the node |
| Apt.GrownRefl | apt/apt.go:21-117 | every tree is grown from itself, so untouched children count as kept |
| Apt.AddCounts | apt/apt.go:21-141 | a stored node adds its nodes to the tree's, and its nils minus the one it fills; a dropped node (at a leaf) leaves the tree unchanged |
| Apt.AddCountsSingle | apt/apt.go:34-49 | the same for a single node |
| Apt.AddCountsDouble | apt/apt.go:56-71 | the same for a double node |
| Apt.AddCountsLeft | apt/apt.go:58-63 | the same when the draw picks the left child |
| Apt.AddCountsRight | apt/apt.go:64-69 | the same when the draw picks the right child |
| Apt.AddCountsTriple | apt/apt.go:96-117 | the same for a triple node |
| Apt.AddCountsFirst | apt/apt.go:98-103 | the same when the draw picks the first child |
| Apt.AddCountsSecond | apt/apt.go:104-109 | the same when the draw picks the second child |
| Apt.AddCountsThird | apt/apt.go:110-115 | the same when the draw picks the third child |
| Apt.AddToCounts | apt/apt.go:35-39 | the same for a child slot |
| Apt.LeafDrops | apt/apt.go:21-24 | a leaf discards the node and stays as it was |
| Apt.EmptySlotStores | apt/apt.go:58-60 | an empty slot that the draw picks receives the node itself |
| Apt.RandomNode | apt/apt.go:308-334 | `GetRandomNode` returns a bare node with at least one child slot for each draw 0..9 |
| Apt.RandomLeaf | apt/apt.go:336-348 | `GetRandomLeaf` returns X, Y or, exactly for draw 2, a constant `2f - 1` |
| Apt.RandomNodeCovers | apt/apt.go:308-334 | every operator with children comes from some draw of `GetRandomNode`, and a fresh node counts (1, slots) |
| Apt.AptNode.constructor | apt/apt.go:313-331 | a new node holds no children and a valid, fresh representation |
| Apt.AptNode.View | apt/apt.go:19-141 | the tree a node holds has the node's kind at its root |
| Apt.AptNode.AddRandom | apt/apt.go:21-117 | in place, the tree becomes what `Add` says, and the new node's objects join the tree exactly when it was stored |
| Apt.AptNode.AddFirst | apt/apt.go:35-103 | the first slot becomes what `AddTo` says and the other slots keep their trees |
| Apt.AptNode.AddSecond | apt/apt.go:64-109 | the second slot becomes what `AddTo` says and the other slots keep their trees |
| Apt.AptNode.AddThird | apt/apt.go:110-115 | the third slot becomes what `AddTo` says and the other slots keep their trees |
| Apt.SingleName | apt/apt.go:151-185 | the operator names contain no bracket |
| Apt.DoubleName | apt/apt.go:195-269 | the operator names contain no bracket |
| Apt.TripleName | apt/apt.go:219-221 | "Lerp" contains no bracket |
| Apt.Show | apt/apt.go:151-305 | the text of a node with children starts with '(' and ends with ')' |
| Apt.ShowBalancedDouble | apt/apt.go:195-269 | a double node's text holds as many '(' and as many ')' as it has nodes with children |
| Apt.ShowBalancedTriple | apt/apt.go:219-221 | a triple node's text holds as many '(' and as many ')' as it has nodes with children |
| Apt.ShowBalanced | apt/apt.go:151-293 | `String` of a complete tree holds exactly as many '(' and as many ')' as the tree has nodes with children |
| Balloons.Plot | balloons/balloons.go:29-31 | the three colour bytes at the index are set; every other byte, alpha included, is unchanged |
| Balloons.SetPixelAsWritten | balloons/balloons.go:25-34 | as written: the pixel is written when `0 <= index < len - 4`, and otherwise the buffer is unchanged |
| Balloons.SetPixel | balloons/balloons.go:25-34 | corrected: the pixel is written when all of it fits the buffer, and otherwise the buffer is unchanged |
| Balloons.IndexOnScreen | balloons/balloons.go:26 | on-screen pixels start at multiples of four below the buffer's end; only the bottom-right one starts at `len - 4` |
| Balloons.LastPixelSkipped | balloons/balloons.go:28 | on the screen buffer, the test as written refuses exactly the bottom-right pixel |
| Balloons.EveryPixelWritten | balloons/balloons.go:28 | the corrected test accepts every on-screen pixel, and never reaches past the buffer |
| Balloons.Texture.constructor | balloons/balloons.go:87 | a texture from `loadBalloons`: rows of `4 * w` bytes |
| Balloons.Texture.TexelInRange | balloons/balloons.go:43 | every byte of every texel lies in the texture's buffer |
| Balloons.Texture.Draw | balloons/balloons.go:36-53 | every byte of an on-screen target pixel holds its texel's byte; every other byte is unchanged |
| Balloons.Texture.DrawTexel | balloons/balloons.go:40-50 | one iteration of the inner loop draws one texel when it is on screen |
| Balloons.Texture.CopyPixel | balloons/balloons.go:46-49 | the four bytes of the texel go to the four screen bytes, and nothing else changes |
| Balloons.Texture.DrawPlacement | balloons/balloons.go:43-44 | byte `c` of texel (tx, ty) goes to byte `c` of pixel (tx + px, ty + py) |
| Balloons.Texture.DrawClips | balloons/balloons.go:42 | only on-screen pixels inside the texture's footprint are drawn |
| Balloons.ScreenPosOf | balloons/balloons.go:44 | every screen byte belongs to one on-screen pixel |
| Balloons.ScreenIndexOf | balloons/balloons.go:44 | the four bytes of an on-screen pixel belong to that pixel |
| Balloons2.Clamp | balloons2/balloons2.go:294-301 | below `min` gives `min`, above `max` gives `max`, in between gives `v`; within `[min, max]` when `min <= max` |
| Balloons2.ClampIdempotentMonotone | balloons2/balloons2.go:294-301 | clamping twice is clamping once, and clamping keeps the order of values |
| Balloons2.Balloon.constructor | balloons2/balloons2.go:58-64 | a new balloon is neither exploding nor exploded |
| Balloons2.Swap | balloons2/balloons2.go:72-74 | entries i and j trade places, and no other entry moves |
| Balloons2.LastHit | balloons2/balloons2.go:104-128 | the scan from the end finds a hit balloon |
| Balloons2.LastHitIsHighest | balloons2/balloons2.go:101-135 | the balloon found is the highest-index hit, and none is found exactly when no balloon is hit |
| Balloons2.MarkBalloons | balloons2/balloons2.go:100-151 | a finished explosion becomes exploded; only the highest-index hit starts exploding, and only when the button went down this frame; `balloonExploded` says whether any explosion finished |
| Balloons2.MarkStep | balloons2/balloons2.go:104-151 | one iteration keeps the loop's invariant |
| Balloons2.MarkOne | balloons2/balloons2.go:108-135 | one balloon's flags change as the body says |
| Balloons2.Kept | balloons2/balloons2.go:155-159 | keeping never lengthens the list |
| Balloons2.KeptIsKeepBy | balloons2/balloons2.go:155-159 | keeping by a snapshot of the exploded flags keeps the same balloons |
| Balloons2.KeptExactly | balloons2/balloons2.go:153-161 | compaction keeps exactly the balloons that have not exploded, and keeps all of them when none has |
| Balloons2.KeptMember | balloons2/balloons2.go:155-159 | a balloon is kept exactly when it is in the list and has not exploded |
| Balloons2.KeptNone | balloons2/balloons2.go:153-161 | with nothing exploded, the list is kept whole |
| Balloons2.KeptAppend | balloons2/balloons2.go:155-159 | keeping distributes over concatenation, so relative order is preserved |
| Balloons2.Compact | balloons2/balloons2.go:154-160 | in the same array, the first `m` entries become the kept balloons in order; later entries are untouched |
| Balloons2.UpdateBalloons | balloons2/balloons2.go:93-163 | the flags as `MarkBalloons` sets them; compaction runs exactly when some explosion finished |
| LinearStory.StoryPage.constructor | linearStory/linearStory.go:42 | a page holds its text and next pointer |
| LinearStory.StoryPage.AddToEnd | linearStory/linearStory.go:28-33 | the story's texts become the old ones followed by the new text, and the old pages keep their order |
| LinearStory.StoryPage.AddAfter | linearStory/linearStory.go:35-38 | the texts become the head's, the new text, then the rest |
| LinearStory.StoryPage.PlayStory | linearStory/linearStory.go:12-26 | the texts are shown once per page, in `nextPage` order, until nil |
| LinearStory.Texts | linearStory/linearStory.go:22-25 | one text per page, in order |
| LinearStory.TextsAppend | linearStory/linearStory.go:22-25 | the texts of joined chains are the joined texts |
| LinearStory.ChainSnoc | linearStory/linearStory.go:28-33 | a page appended after the last one, pointing nowhere, extends the chain of distinct pages |
| LinearStory.ChainUnique | linearStory/linearStory.go:22-25 | the chain from a page is determined by its `nextPage` pointers |
| LinearStory.Demo | linearStory/linearStory.go:40-49 | `main` shows the first page, "Bla", then the two pages added at the end |
| TextAdventure.StoryNode.constructor | textAdventure/textAdventure.go:59-74 | a node literal has its text and no choices |
| TextAdventure.StoryNode.AddChoice | textAdventure/textAdventure.go:21-25 | the choice is appended and the earlier ones stay, in order |
| TextAdventure.StoryNode.ExecuteCmd | textAdventure/textAdventure.go:36-44 | the node of the first choice whose command matches, ignoring case (a later duplicate is never taken); with no match, the node itself |
| TextAdventure.LowerChar | textAdventure/textAdventure.go:38 | ASCII upper-case letters become lower case, other characters stay |
| TextAdventure.ToLower | textAdventure/textAdventure.go:38 | `strings.ToLower` works letter by letter |
| TextAdventure.DifferentLettersDiffer | textAdventure/textAdventure.go:38 | commands that differ in a letter, other than by case, never match |
| TextAdventure.DarkRoom | textAdventure/textAdventure.go:70-83 | in the dark room, "o" takes the lit room and "x" stays |
| Guess.Half | guess/guess.go:20 | Go's division by two truncates towards zero |
| Guess.Guessed | guess/guess.go:20 | the guess lies in `[low, high]` when the interval is non-empty |
| Guess.Step | guess/guess.go:29-38 | "a" sets `high = guess - 1`, "b" sets `low = guess + 1`, "c" wins, and anything else changes nothing |
| Guess.StepHalves | guess/guess.go:29-32 | on a non-empty interval, "a" or "b" strictly shrinks it and at least halves its width |
| Guess.HonestKeepsSecret | guess/guess.go:20-35 | an honest answer keeps the secret inside the interval |
| Guess.HonestWithin | guess/guess.go:19-39 | an interval of fewer than 2^k numbers is won within k guesses |
| Guess.TenGuesses | guess/guess.go:12-39 | starting from [1, 1000], an honest player is found within ten guesses |
| Guess.SessionStopsAtC | guess/guess.go:19-39 | the game is won exactly when some line reads "c", with one guess per line up to the first "c" |
| Guess.FirstC | guess/guess.go:33-35 | the first "c" among the lines |
| Guess.Play | guess/guess.go:12-39 | the loop makes the guesses and reaches the outcome that `Session` defines |

## Left out

- Search.Astar: does not state that the path is shortest, nor the first-in-first-out order among equal priorities. The `pqueue` code is not part of this model; `pop` is specified only as removing some entry of least priority.
- Search.Pop: picks the first entry of least priority. The Go heap's tie order is not modelled.
- Search.BfsFloor: states the result and termination, not which floor tile is reached. Both exits of the source return `DirtFloor`, so the tile reached does not affect the result.
- Monsters.MoveMonster: leaves out the deletion of a monster whose HP is gone (rpg/game/monsters.go:47-49). The monster's own blow does not change its HP, and every monster in the map is alive, so that branch cannot fire.
- Monsters.Update: AP and speed are exact reals, not `float64`. The `fmt.Println` calls are left out.
- Monsters.MoveMonster: rpg/game/monsters.go:43 calls `Attack` as a free function, but it is a method of `Level` (rpg/game/game.go:123). It is modelled as `level.Attack`, which also logs the blow, so a monster's blow costs it one AP there and one more in `Update`'s loop.
- World.Game.Move: the portal branch keeps the current level's flags and does not recompute sight on the destination level, as in the source.
- World.Game.HandleInput: `QuitGame` ends the game loop and is not part of `handleInput`. Closing the channel is concurrency; only the list removal is modelled, over abstract channel numbers.
- `NewGame`, `Run`, the level channels, the input channel, rpg/main.go and rpg/ui2d/ui2d.go: goroutines, channels and SDL rendering.
- File and directory I/O: `os.Open`, `filepath.Glob`, `bufio.Scanner`, the CSV reader and the level's base-name extraction. Maps come in as lines of text, and the world file as rows of fields.
- Load.LoadLevel: requires that the first sight computation stays on the map, because the source indexes the grid unchecked there. A map that breaks this crashes the source and is not modelled.
- World.CheckDoor: requires the position to be on the map and the recomputed rays to stay on it (rpg/game/game.go:427 indexes unchecked).
- The unused `Debug` map, and the `Hit`/`Portal` events that nothing sets.
- Apt.Show: takes the printed form of a constant, `strconv.FormatFloat`, as a parameter and requires a complete tree. In Go, printing a nil child is a crash.
- Apt.AptNode.AddRandom: requires the added node to share no object with the tree. Adding a node to itself, or a node already in the tree, would create a cycle and is not modelled.
- Apt.LeafDrops: the "Leaf node" console line is left out.
- Every `Eval` (trigonometry, simplex noise, floating point) and `OpTan`, which has no `String` method and so is not a `Node`.
- The `rand` calls of `AddRandom`, `GetRandomNode` and `GetRandomLeaf`: they are parameters.
- evolvingpictures/evolvingpictures.go and evolvingpictures/evolvingpictures.test.go: SDL and goroutine code, calling tree operations that apt/apt.go does not define.
- Balloons.Texture.Draw: takes the offset already converted to integers. The `int(p.x)` of a `float32` is left out.
- `loadBalloons`, `imgFileToTexture`, `pixelsToTexture` and both `main` functions of balloons and balloons2: PNG decoding, SDL textures and the event loop.
- Balloons2.UpdateBalloons: the explosion timer and the mouse-in-circle hit test are Boolean parameters. Ball physics, `getScale`, `getCircle`, audio, `draw`, `lerp`, `colorLerp`, `getGradient`, `rescaleAndDraw` and the `sort.Sort` by depth are floating point or SDL.
- TextAdventure.ToLower: lowers the ASCII letters only. Go's `strings.ToLower` also lowers other Unicode letters.
- `render` and `play` of textAdventure and the printing of `playStory`: console I/O. `PlayStory` returns the texts shown instead.
- TextAdventure.StoryNode.ExecuteCmd: the "Sorry, I didn't understand that" line printed when no choice matches (textAdventure/textAdventure.go:42) is console output and is left out; the node returned in that case is modelled.
- Guess.Play: ends when the lines run out. On end of input the Go program reads empty lines forever.
- branchingStory/branchingStory.go: console printing and standard input only.

## Behaviour worth knowing

The model follows the code, which in these places behaves in ways a reader might not expect:

- **Monster with no path.** `Monster.Update` keeps the AP it gained when A* finds no path. The points are not forfeited, so they build up over turns (`Monsters.Update`).
- **Blow from `Move`.** `Monster.Move` called on its own strikes the player whenever `to` holds a monster or the player, and the monster stays where it is (`Monsters.MoveMonster`). Through `Update` the only blow is at the player: the A* path's tiles after the first hold no monster and are all distinct, so the monster strikes only from the last tile but one, and no step is left after the blow (`Monsters.Update`).
- **Sight range 1.** Only the player's own tile is marked with sight range 1, not the eight neighbours. `bresenham` never marks a ray's end tile, and the Euclidean disk of radius 1 has no diagonals (`Vision.SightOneMarksOnlyPlayer`).
- **Door opening.** `checkDoor` recomputes sight without clearing the `Visible` flags first, so tiles seen before the door opened stay visible (`World.CheckDoor`).

## Findings

| source | as written | input that shows it | evidently intended | confidence | as-written member | corrected member |
|---|---|---|---|---|---|---|
| balloons/balloons.go:28 | `index < len(pixels)-4` refuses a pixel whose first byte is the buffer's fourth-last | `setPixel(799, 599, c, pixels)` on the 800 x 600 x 4 screen buffer: index 1919996 = len - 4, so the bottom-right pixel is never written | `index <= len(pixels)-4`, every pixel that fits is written | not executed | Balloons.LastPixelSkipped | Balloons.EveryPixelWritten |
