/**
 * The two searches of rpg/game/game.go over the walkable 4-neighbour graph:
 * `bfsFloor`, the breadth-first search `loadLevels` uses to replace pending
 * tiles, and `astar`, the path search the monsters follow.
 */
module Search {
  import opened Dungeon
  import opened Levels

  /** Every position on a grid. */
  function Universe(g: Grid): (u: set<Pos>)
    requires WellFormed(g)
    ensures forall p :: p in u <==> InRange(g, p)
  {
    set p | p in Cells(|g[0]|, |g|)
  }

  lemma {:induction false} SubsetCard(a: set<Pos>, b: set<Pos>)
    requires a <= b
    ensures |a| <= |b|
    decreases a
  {
    if a != {} {
      var x :| x in a;
      SubsetCard(a - {x}, b - {x});
    }
  }

  // ---------------------------------------------------------------------
  // bfsFloor

  lemma VisitOne(u: set<Pos>, visited: set<Pos>, next: Pos)
    requires next in u && next !in visited
    ensures |u - (visited + {next})| == |u - visited| - 1
  {
    assert u - (visited + {next}) == (u - visited) - {next};
  }

  /**
   * `bfsFloor`: a breadth-first search from `start` that stops at the first
   * `DirtFloor` tile. Both of its exits return `DirtFloor`, so a pending tile
   * always becomes floor; the search itself only has to stay on the map
   * (it indexes the map unchecked) and terminate.
   */
  method BfsFloor(level: Level, start: Pos) returns (r: Glyph)
    requires level.Valid() && InRange(level.tiles, start)
    ensures r == DirtFloor
  {
    ghost var u := Universe(level.tiles);
    var frontier := [start];
    var visited := {start};
    while |frontier| > 0
      invariant visited <= u
      invariant forall i :: 0 <= i < |frontier| ==> InRange(level.tiles, frontier[i])
      decreases |u - visited|, |frontier|
    {
      var current := frontier[0];
      var currentTile := level.tiles[current.y][current.x];
      if currentTile.glyph == DirtFloor {
        return DirtFloor;
      }
      frontier := frontier[1..];
      frontier, visited := VisitNeighbors(level, current, frontier, visited, u);
    }
    return DirtFloor;
  }

  /** The neighbour loop of `bfsFloor`: queues and marks every walkable neighbour not yet visited. */
  method VisitNeighbors(level: Level, current: Pos, frontier0: seq<Pos>, visited0: set<Pos>, ghost u: set<Pos>)
    returns (frontier: seq<Pos>, visited: set<Pos>)
    requires level.Valid() && visited0 <= u && forall p :: p in u <==> InRange(level.tiles, p)
    requires forall i :: 0 <= i < |frontier0| ==> InRange(level.tiles, frontier0[i])
    ensures visited0 <= visited <= u
    ensures forall i :: 0 <= i < |frontier| ==> InRange(level.tiles, frontier[i])
    ensures visited == visited0 ==> frontier == frontier0
    ensures visited != visited0 ==> |u - visited| < |u - visited0|
  {
    frontier, visited := frontier0, visited0;
    ghost var added := 0;
    var ns := Neighbors(level.tiles, level.monsters, current);
    for k := 0 to |ns|
      invariant visited0 <= visited <= u
      invariant forall i :: 0 <= i < |frontier| ==> InRange(level.tiles, frontier[i])
      invariant |u - visited| + added == |u - visited0|
      invariant added == 0 ==> visited == visited0 && frontier == frontier0
    {
      var next := ns[k];
      if next !in visited {
        NeighborInRange(level.tiles, level.monsters, current, k);
        VisitOne(u, visited, next);
        frontier := frontier + [next];
        visited := visited + {next};
        added := added + 1;
      }
    }
  }

  // ---------------------------------------------------------------------
  // astar

  /** A priority-queue entry: a position and its priority (cost so far plus Manhattan distance). */
  datatype Entry = Entry(pos: Pos, priority: int)

  predicate InFrontier(frontier: seq<Entry>, p: Pos)
  {
    exists i :: 0 <= i < |frontier| && frontier[i].pos == p
  }

  /** Index of the first entry of least priority. */
  function MinIndex(s: seq<Entry>): (i: nat)
    requires |s| > 0
    ensures i < |s| && forall j :: 0 <= j < |s| ==> s[i].priority <= s[j].priority
  {
    if |s| == 1 then 0
    else
      var k := MinIndex(s[1..]) + 1;
      assert forall j :: 1 <= j < |s| ==> s[j] == s[1..][j - 1];
      if s[0].priority <= s[k].priority then 0 else k
  }

  /**
   * `pqueue.pop`, whose code is not part of this model: it removes one entry of
   * least priority, ties broken in some unspecified way.
   */
  method Pop(frontier: seq<Entry>) returns (rest: seq<Entry>, e: Entry)
    requires |frontier| > 0
    ensures e in frontier && forall x :: x in frontier ==> e.priority <= x.priority
    ensures |rest| == |frontier| - 1 && multiset(rest) + multiset{e} == multiset(frontier)
    ensures forall x :: x in frontier <==> x in rest || x == e
  {
    var i := MinIndex(frontier);
    e := frontier[i];
    rest := frontier[..i] + frontier[i + 1..];
    assert frontier == frontier[..i] + [e] + frontier[i + 1..];
  }

  /**
   * The search tree `astar` keeps in `cameFrom` and `costSoFar`: both have the
   * same keys, the start is its own parent at cost 0, and every other key is a
   * walkable tile whose parent is a 4-neighbour of strictly lower cost.
   * Costs stay below the number of keys.
   */
  ghost predicate Tree(g: Grid, m: map<Pos, Character>, start: Pos, cameFrom: map<Pos, Pos>, cost: map<Pos, int>)
    requires WellFormed(g)
  {
    Descending(start, cameFrom, cost) && cost[start] == 0 && cameFrom[start] == start &&
    (forall p :: p in cost ==> cost[p] < |cost|) && WalkableParents(g, m, start, cameFrom)
  }

  /** Every tile but `start` is a walkable 4-step away from its parent. */
  ghost predicate WalkableParents(g: Grid, m: map<Pos, Character>, start: Pos, cameFrom: map<Pos, Pos>)
    requires WellFormed(g)
  {
    forall p {:trigger cameFrom[p]} :: p in cameFrom && p != start ==> Adjacent(cameFrom[p], p) && CanWalk(g, m, p)
  }

  /** Every parent but the start's is a key of lower cost, so following parents ends at `start`. */
  ghost predicate Descending(start: Pos, cameFrom: map<Pos, Pos>, cost: map<Pos, int>)
  {
    start in cost && cameFrom.Keys == cost.Keys && (forall p :: p in cost ==> 0 <= cost[p]) &&
    forall p {:trigger cameFrom[p]} :: p in cameFrom && p != start ==> cameFrom[p] in cost && cost[cameFrom[p]] < cost[p]
  }

  /** Every walkable neighbour of `p` already has a cost. */
  ghost predicate Expanded(g: Grid, m: map<Pos, Character>, cost: map<Pos, int>, p: Pos)
    requires WellFormed(g)
  {
    forall q :: q in Neighbors(g, m, p) ==> q in cost
  }

  /** The loop invariant of `astar` between two pops. */
  ghost predicate Searching(g: Grid, m: map<Pos, Character>, start: Pos, goal: Pos,
                            frontier: seq<Entry>, cameFrom: map<Pos, Pos>, cost: map<Pos, int>)
    requires WellFormed(g)
  {
    Tree(g, m, start, cameFrom, cost) &&
    (forall i :: 0 <= i < |frontier| ==> frontier[i].pos in cost) &&
    (forall p {:trigger Expanded(g, m, cost, p)} :: p in cost ==> InFrontier(frontier, p) || Expanded(g, m, cost, p)) &&
    (goal in cost ==> InFrontier(frontier, goal))
  }

  /** The termination measure of `astar`: the costs summed over `cs`, a missing cost counting as `bound`. */
  function Val(cost: map<Pos, int>, bound: int, p: Pos): int
  {
    if p in cost then cost[p] else bound
  }

  function Potential(cs: seq<Pos>, cost: map<Pos, int>, bound: int): int
  {
    if cs == [] then 0 else Val(cost, bound, cs[0]) + Potential(cs[1..], cost, bound)
  }

  lemma {:induction false} PotentialNonneg(cs: seq<Pos>, cost: map<Pos, int>, bound: int)
    requires bound >= 0 && forall p :: p in cost ==> cost[p] >= 0
    ensures Potential(cs, cost, bound) >= 0
  {
    if cs != [] {
      PotentialNonneg(cs[1..], cost, bound);
    }
  }

  lemma {:induction false} PotentialMono(cs: seq<Pos>, c1: map<Pos, int>, c2: map<Pos, int>, bound: int)
    requires forall p :: Val(c2, bound, p) <= Val(c1, bound, p)
    ensures Potential(cs, c2, bound) <= Potential(cs, c1, bound)
  {
    if cs != [] {
      PotentialMono(cs[1..], c1, c2, bound);
    }
  }

  lemma {:induction false} PotentialLess(cs: seq<Pos>, c1: map<Pos, int>, c2: map<Pos, int>, bound: int, q: Pos)
    requires forall p :: Val(c2, bound, p) <= Val(c1, bound, p)
    requires q in cs && Val(c2, bound, q) < Val(c1, bound, q)
    ensures Potential(cs, c2, bound) < Potential(cs, c1, bound)
  {
    if cs[0] == q {
      PotentialMono(cs[1..], c1, c2, bound);
    } else {
      PotentialLess(cs[1..], c1, c2, bound, q);
    }
  }

  /** Pointwise, no cost of `c2` is above that of `c1` (a missing cost counting as `bound`). */
  ghost predicate Below(c2: map<Pos, int>, c1: map<Pos, int>, bound: int)
  {
    forall p :: Val(c2, bound, p) <= Val(c1, bound, p)
  }

  /** The keys of the tree are the start and tiles of the map, so there are at most that many. */
  lemma TreeSize(g: Grid, m: map<Pos, Character>, start: Pos, cameFrom: map<Pos, Pos>, cost: map<Pos, int>)
    requires WellFormed(g) && Tree(g, m, start, cameFrom, cost)
    ensures |cost.Keys| <= |Universe(g) + {start}|
  {
    forall p | p in cost ensures p in Universe(g) + {start} {
      if p != start {
        assert CanWalk(g, m, p);
      }
    }
    SubsetCard(cost.Keys, Universe(g) + {start});
  }

  /**
   * The invariant of the neighbour loop of `astar` for the popped position
   * `current`, after the first `k` of its neighbours `ns`: those are keys,
   * and when anything changed, the costs went down pointwise and strictly at
   * the tile `q`.
   */
  ghost predicate Relaxing(g: Grid, m: map<Pos, Character>, start: Pos, goal: Pos, current: Pos,
                           frontier0: seq<Entry>, cost0: map<Pos, int>, bound: int, ns: seq<Pos>, k: int,
                           frontier: seq<Entry>, cameFrom: map<Pos, Pos>, cost: map<Pos, int>, q: Pos)
    requires WellFormed(g)
  {
    Tree(g, m, start, cameFrom, cost) &&
    RelaxKeys(current, frontier0, cost0, ns, k, frontier, cost) &&
    Closed(g, m, goal, current, frontier, cost) &&
    Lowered(g, frontier0, cost0, bound, frontier, cost, q)
  }

  /** The keys part of `Relaxing`: the pop's keys and frontier are kept, and the first `k` neighbours are keys. */
  ghost predicate RelaxKeys(current: Pos, frontier0: seq<Entry>, cost0: map<Pos, int>, ns: seq<Pos>, k: int,
                            frontier: seq<Entry>, cost: map<Pos, int>)
  {
    current in cost0 && current in cost && cost[current] == cost0[current] &&
    cost0.Keys <= cost.Keys && frontier0 <= frontier &&
    0 <= k <= |ns| && (forall j :: 0 <= j < k ==> ns[j] in cost)
  }

  /** The frontier part of `Relaxing`: every key but `current` is pushed or expanded, and so is the goal once reached. */
  ghost predicate Closed(g: Grid, m: map<Pos, Character>, goal: Pos, current: Pos, frontier: seq<Entry>, cost: map<Pos, int>)
    requires WellFormed(g)
  {
    (forall i :: 0 <= i < |frontier| ==> frontier[i].pos in cost) &&
    (forall p {:trigger Expanded(g, m, cost, p)} :: p in cost && p != current ==> InFrontier(frontier, p) || Expanded(g, m, cost, p)) &&
    (goal in cost ==> InFrontier(frontier, goal))
  }

  /** The progress part of `Relaxing`: nothing changed, or the costs went down pointwise and strictly at `q`. */
  ghost predicate Lowered(g: Grid, frontier0: seq<Entry>, cost0: map<Pos, int>, bound: int,
                          frontier: seq<Entry>, cost: map<Pos, int>, q: Pos)
    requires WellFormed(g)
  {
    (cost == cost0 && frontier == frontier0) ||
    (Below(cost, cost0, bound) && InRange(g, q) && Val(cost, bound, q) < Val(cost0, bound, q))
  }

  /** Giving a key's neighbour a lower cost, with that key as parent, keeps the parents descending. */
  lemma DescendingRelax(start: Pos, cameFrom: map<Pos, Pos>, cost: map<Pos, int>, current: Pos, next: Pos)
    requires Descending(start, cameFrom, cost) && current in cost && next != start && next != current
    requires next !in cost || cost[current] + 1 < cost[next]
    ensures Descending(start, cameFrom[next := current], cost[next := cost[current] + 1])
  {
    var cost' := cost[next := cost[current] + 1];
    var cameFrom' := cameFrom[next := current];
    forall p | p in cameFrom' && p != start
      ensures cameFrom'[p] in cost' && cost'[cameFrom'[p]] < cost'[p]
    {
      if p != next {
        assert cameFrom'[p] == cameFrom[p];
      }
    }
  }

  /** Every cost stays below the number of keys when a neighbour of a key is relaxed. */
  lemma CostBoundRelax(cost: map<Pos, int>, current: Pos, next: Pos)
    requires current in cost && forall p :: p in cost ==> cost[p] < |cost|
    requires next !in cost || cost[current] + 1 < cost[next]
    ensures var c := cost[next := cost[current] + 1]; forall p :: p in c ==> c[p] < |c|
  {
    var c := cost[next := cost[current] + 1];
    assert c.Keys == cost.Keys + {next};
    if next !in cost {
      assert |c| == |cost| + 1;
    } else {
      assert c.Keys == cost.Keys;
    }
  }

  /** Relaxing a walkable neighbour of a key keeps the search tree a tree. */
  lemma TreeRelax(g: Grid, m: map<Pos, Character>, start: Pos, cameFrom: map<Pos, Pos>, cost: map<Pos, int>,
                  current: Pos, next: Pos)
    requires WellFormed(g) && Tree(g, m, start, cameFrom, cost) && current in cost
    requires next in Neighbors(g, m, current)
    requires next !in cost || cost[current] + 1 < cost[next]
    ensures next != start && next != current
    ensures Tree(g, m, start, cameFrom[next := current], cost[next := cost[current] + 1])
  {
    assert Adjacent(current, next) && CanWalk(g, m, next);
    DescendingRelax(start, cameFrom, cost, current, next);
    CostBoundRelax(cost, current, next);
    WalkableRelax(g, m, start, cameFrom, current, next);
  }

  /** Giving a walkable neighbour of `current` that parent keeps every parent a walkable step away. */
  lemma WalkableRelax(g: Grid, m: map<Pos, Character>, start: Pos, cameFrom: map<Pos, Pos>, current: Pos, next: Pos)
    requires WellFormed(g) && WalkableParents(g, m, start, cameFrom)
    requires Adjacent(current, next) && CanWalk(g, m, next)
    ensures WalkableParents(g, m, start, cameFrom[next := current])
  {
    var cameFrom' := cameFrom[next := current];
    forall p | p in cameFrom' && p != start
      ensures Adjacent(cameFrom'[p], p) && CanWalk(g, m, p)
    {
      if p != next {
        assert cameFrom'[p] == cameFrom[p];
      }
    }
  }

  /** Relaxing `next` pushes it, so the frontier and closure facts carry over. */
  lemma FrontierRelax(g: Grid, m: map<Pos, Character>, goal: Pos, current: Pos,
                      frontier: seq<Entry>, cost: map<Pos, int>, next: Pos, v: int, priority: int)
    requires WellFormed(g) && Closed(g, m, goal, current, frontier, cost)
    ensures Closed(g, m, goal, current, frontier + [Entry(next, priority)], cost[next := v])
  {
    var f := frontier + [Entry(next, priority)];
    var c := cost[next := v];
    assert f[|f| - 1].pos == next;
    forall p | InFrontier(frontier, p) ensures InFrontier(f, p) {
      var i :| 0 <= i < |frontier| && frontier[i].pos == p;
      assert f[i].pos == p;
    }
    forall p | p in c && p != current ensures InFrontier(f, p) || Expanded(g, m, c, p) {
      if p != next && !InFrontier(frontier, p) {
        assert Expanded(g, m, cost, p);
      }
    }
  }

  /** Relaxing `next` lowers its cost and no other. */
  lemma CostRelax(g: Grid, cost0: map<Pos, int>, cost: map<Pos, int>, bound: int, q: Pos, next: Pos, v: int)
    requires WellFormed(g) && InRange(g, next) && v < Val(cost, bound, next)
    requires cost == cost0 || (Below(cost, cost0, bound) && InRange(g, q) && Val(cost, bound, q) < Val(cost0, bound, q))
    ensures Below(cost[next := v], cost0, bound) && Val(cost[next := v], bound, next) < Val(cost0, bound, next)
  {
    forall p ensures Val(cost[next := v], bound, p) <= Val(cost0, bound, p) {
      if cost != cost0 {
        assert Val(cost, bound, p) <= Val(cost0, bound, p);
      }
    }
    if cost != cost0 {
      assert Val(cost, bound, next) <= Val(cost0, bound, next);
    }
  }

  /** One relaxation of the neighbour loop keeps its invariant. */
  lemma RelaxStep(g: Grid, m: map<Pos, Character>, start: Pos, goal: Pos, current: Pos,
                  frontier0: seq<Entry>, cost0: map<Pos, int>, bound: int, ns: seq<Pos>, k: int,
                  frontier: seq<Entry>, cameFrom: map<Pos, Pos>, cost: map<Pos, int>, q: Pos,
                  priority: int)
    requires WellFormed(g) && bound == |Universe(g) + {start}| + 1 && ns == Neighbors(g, m, current)
    requires Relaxing(g, m, start, goal, current, frontier0, cost0, bound, ns, k, frontier, cameFrom, cost, q)
    requires k < |ns| && (ns[k] !in cost || cost[current] + 1 < cost[ns[k]])
    ensures Relaxing(g, m, start, goal, current, frontier0, cost0, bound, ns, k + 1,
      frontier + [Entry(ns[k], priority)], cameFrom[ns[k] := current], cost[ns[k] := cost[current] + 1], ns[k])
  {
    var next, v := ns[k], cost[current] + 1;
    TreeRelax(g, m, start, cameFrom, cost, current, next);
    TreeSize(g, m, start, cameFrom, cost);
    RelaxLowers(g, cost, cost0, bound, q, current, next);
    FrontierRelax(g, m, goal, current, frontier, cost, next, v, priority);
    KeysRelax(current, frontier0, cost0, ns, k, frontier, cost, Entry(next, priority), v);
    assert Lowered(g, frontier0, cost0, bound, frontier + [Entry(next, priority)], cost[next := v], next);
  }

  /** Relaxing the `k`-th neighbour, not `current` itself, makes it a key and keeps the other keys. */
  lemma KeysRelax(current: Pos, frontier0: seq<Entry>, cost0: map<Pos, int>, ns: seq<Pos>, k: int,
                  frontier: seq<Entry>, cost: map<Pos, int>, e: Entry, v: int)
    requires RelaxKeys(current, frontier0, cost0, ns, k, frontier, cost) && 0 <= k < |ns| && ns[k] != current
    ensures RelaxKeys(current, frontier0, cost0, ns, k + 1, frontier + [e], cost[ns[k] := v])
  {
  }

  /** The cost part of one relaxation: the costs stay below those at the pop, strictly at `next`. */
  lemma RelaxLowers(g: Grid, cost: map<Pos, int>, cost0: map<Pos, int>, bound: int, q: Pos, current: Pos, next: Pos)
    requires WellFormed(g) && current in cost && cost[current] < |cost| < bound && InRange(g, next)
    requires next !in cost || cost[current] + 1 < cost[next]
    requires cost == cost0 || (Below(cost, cost0, bound) && InRange(g, q) && Val(cost, bound, q) < Val(cost0, bound, q))
    ensures var c := cost[next := cost[current] + 1];
      Below(c, cost0, bound) && InRange(g, next) && Val(c, bound, next) < Val(cost0, bound, next)
  {
    CostRelax(g, cost0, cost, bound, q, next, cost[current] + 1);
  }

  /** A neighbour that does not improve is already a key, so the loop moves past it. */
  lemma RelaxSkip(g: Grid, m: map<Pos, Character>, start: Pos, goal: Pos, current: Pos,
                  frontier0: seq<Entry>, cost0: map<Pos, int>, bound: int, ns: seq<Pos>, k: int,
                  frontier: seq<Entry>, cameFrom: map<Pos, Pos>, cost: map<Pos, int>, q: Pos)
    requires WellFormed(g)
    requires Relaxing(g, m, start, goal, current, frontier0, cost0, bound, ns, k, frontier, cameFrom, cost, q)
    requires k < |ns| && ns[k] in cost
    ensures Relaxing(g, m, start, goal, current, frontier0, cost0, bound, ns, k + 1, frontier, cameFrom, cost, q)
  {
  }

  /** Once every neighbour of `current` is a key, `current` is expanded and the search invariant is back. */
  lemma RelaxDone(g: Grid, m: map<Pos, Character>, start: Pos, goal: Pos, current: Pos,
                  frontier0: seq<Entry>, cost0: map<Pos, int>, bound: int, ns: seq<Pos>,
                  frontier: seq<Entry>, cameFrom: map<Pos, Pos>, cost: map<Pos, int>, q: Pos)
    requires WellFormed(g) && ns == Neighbors(g, m, current)
    requires Relaxing(g, m, start, goal, current, frontier0, cost0, bound, ns, |ns|, frontier, cameFrom, cost, q)
    ensures Searching(g, m, start, goal, frontier, cameFrom, cost)
  {
    assert Expanded(g, m, cost, current);
  }

  /**
   * The neighbour loop of `astar` for the popped position `current`: every
   * walkable neighbour whose cost improves (or that has none yet) gets the new
   * cost and parent and is pushed with priority cost plus Manhattan distance to `goal`.
   */
  method Expand(g: Grid, m: map<Pos, Character>, start: Pos, goal: Pos, current: Pos,
                frontier0: seq<Entry>, cameFrom0: map<Pos, Pos>, cost0: map<Pos, int>, ghost bound: int)
    returns (frontier: seq<Entry>, cameFrom: map<Pos, Pos>, cost: map<Pos, int>, ghost q: Pos)
    requires WellFormed(g) && bound == |Universe(g) + {start}| + 1
    requires Relaxing(g, m, start, goal, current, frontier0, cost0, bound, [], 0, frontier0, cameFrom0, cost0, current)
    ensures Searching(g, m, start, goal, frontier, cameFrom, cost)
    ensures (cost == cost0 && frontier == frontier0) ||
      (Below(cost, cost0, bound) && InRange(g, q) && Val(cost, bound, q) < Val(cost0, bound, q))
  {
    frontier, cameFrom, cost, q := frontier0, cameFrom0, cost0, current;
    var ns := Neighbors(g, m, current);
    for k := 0 to |ns|
      invariant Relaxing(g, m, start, goal, current, frontier0, cost0, bound, ns, k, frontier, cameFrom, cost, q)
    {
      frontier, cameFrom, cost, q := RelaxNeighbor(g, m, start, goal, current, frontier0, cost0, bound, ns, k, frontier, cameFrom, cost, q);
    }
    RelaxDone(g, m, start, goal, current, frontier0, cost0, bound, ns, frontier, cameFrom, cost, q);
    assert Lowered(g, frontier0, cost0, bound, frontier, cost, q);
  }

  /**
   * One iteration of the neighbour loop: the `k`-th neighbour gets the new
   * cost and parent and is pushed when its cost improves (or it has none yet).
   */
  method RelaxNeighbor(g: Grid, m: map<Pos, Character>, start: Pos, goal: Pos, current: Pos,
                       frontier0: seq<Entry>, cost0: map<Pos, int>, ghost bound: int, ns: seq<Pos>, k: int,
                       frontier: seq<Entry>, cameFrom: map<Pos, Pos>, cost: map<Pos, int>, ghost q: Pos)
    returns (frontier': seq<Entry>, cameFrom': map<Pos, Pos>, cost': map<Pos, int>, ghost q': Pos)
    requires WellFormed(g) && bound == |Universe(g) + {start}| + 1 && ns == Neighbors(g, m, current)
    requires Relaxing(g, m, start, goal, current, frontier0, cost0, bound, ns, k, frontier, cameFrom, cost, q)
    requires k < |ns|
    ensures Relaxing(g, m, start, goal, current, frontier0, cost0, bound, ns, k + 1, frontier', cameFrom', cost', q')
  {
    var next := ns[k];
    var newCost := cost[current] + 1;
    if next !in cost || newCost < cost[next] {
      var xDist := Abs(goal.x - next.x);
      var yDist := Abs(goal.y - next.y);
      var priority := newCost + xDist + yDist;
      RelaxStep(g, m, start, goal, current, frontier0, cost0, bound, ns, k, frontier, cameFrom, cost, q, priority);
      cost' := cost[next := newCost];
      frontier' := frontier + [Entry(next, priority)];
      cameFrom' := cameFrom[next := current];
      q' := next;
    } else {
      RelaxSkip(g, m, start, goal, current, frontier0, cost0, bound, ns, k, frontier, cameFrom, cost, q);
      frontier', cameFrom', cost', q' := frontier, cameFrom, cost, q;
    }
  }

  function Abs(n: int): nat
  {
    if n < 0 then -n else n
  }

  /** A walk on the map from `start` to `goal`: 4-adjacent steps, every tile after `start` walkable. */
  ghost predicate IsWalk(g: Grid, m: map<Pos, Character>, w: seq<Pos>, start: Pos, goal: Pos)
    requires WellFormed(g)
  {
    |w| > 0 && w[0] == start && w[|w| - 1] == goal &&
    (forall i :: 0 <= i < |w| - 1 ==> Adjacent(w[i], w[i + 1])) &&
    (forall i :: 1 <= i < |w| ==> CanWalk(g, m, w[i]))
  }

  /** The parent chain from `p` back to `start`, as `astar` collects it. */
  ghost function BackChain(start: Pos, cameFrom: map<Pos, Pos>, cost: map<Pos, int>, p: Pos): seq<Pos>
    requires Descending(start, cameFrom, cost) && p in cost
    decreases cost[p]
  {
    if p == start then [start] else [p] + BackChain(start, cameFrom, cost, cameFrom[p])
  }

  function Reversed(s: seq<Pos>): (r: seq<Pos>)
    ensures |r| == |s| && forall k :: 0 <= k < |s| ==> r[k] == s[|s| - 1 - k]
  {
    if s == [] then [] else Reversed(s[1..]) + [s[0]]
  }

  /** Following the parents from any key and reversing gives a walk from `start` to it. */
  lemma {:induction false} BackChainWalk(g: Grid, m: map<Pos, Character>, start: Pos,
                                         cameFrom: map<Pos, Pos>, cost: map<Pos, int>, p: Pos)
    requires WellFormed(g) && Tree(g, m, start, cameFrom, cost) && p in cost
    ensures IsWalk(g, m, Reversed(BackChain(start, cameFrom, cost, p)), start, p)
    decreases cost[p]
  {
    if p != start {
      var q := cameFrom[p];
      BackChainWalk(g, m, start, cameFrom, cost, q);
      var w := Reversed(BackChain(start, cameFrom, cost, q));
      var bc := BackChain(start, cameFrom, cost, p);
      assert bc == [p] + BackChain(start, cameFrom, cost, q);
      assert Reversed(bc) == w + [p] by {
        assert bc[1..] == BackChain(start, cameFrom, cost, q);
      }
    }
  }

  /** No position occurs twice. */
  ghost predicate Simple(w: seq<Pos>)
  {
    forall i, j :: 0 <= i < j < |w| ==> w[i] != w[j]
  }

  /** The parent chain from `p` never repeats a position, and every position on it costs at most `p`'s. */
  lemma {:induction false} BackChainSimple(start: Pos, cameFrom: map<Pos, Pos>, cost: map<Pos, int>, p: Pos)
    requires Descending(start, cameFrom, cost) && p in cost
    ensures Simple(BackChain(start, cameFrom, cost, p))
    ensures forall q :: q in BackChain(start, cameFrom, cost, p) ==> q in cost && cost[q] <= cost[p]
    decreases cost[p]
  {
    if p != start {
      var q := cameFrom[p];
      BackChainSimple(start, cameFrom, cost, q);
      var rest := BackChain(start, cameFrom, cost, q);
      assert BackChain(start, cameFrom, cost, p) == [p] + rest;
      assert p !in rest;
    }
  }

  /** Reversing keeps a sequence simple. */
  lemma ReversedSimple(s: seq<Pos>)
    requires Simple(s)
    ensures Simple(Reversed(s))
  {
    var r := Reversed(s);
    forall i, j | 0 <= i < j < |r| ensures r[i] != r[j] {
      assert r[i] == s[|s| - 1 - i] && r[j] == s[|s| - 1 - j];
    }
  }

  /** Whether a sequence is a walk depends on where monsters stand, not on which monsters they are. */
  lemma WalkSameKeys(g: Grid, m: map<Pos, Character>, m': map<Pos, Character>, w: seq<Pos>, start: Pos, goal: Pos)
    requires WellFormed(g) && m.Keys == m'.Keys && IsWalk(g, m, w, start, goal)
    ensures IsWalk(g, m', w, start, goal)
  {
    forall i | 1 <= i < |w| ensures CanWalk(g, m', w[i]) {
      assert CanWalk(g, m, w[i]);
    }
  }

  /** A key set closed under walkable neighbours that holds `start` holds the end of every walk from `start`. */
  lemma WalkStaysInside(g: Grid, m: map<Pos, Character>, keys: set<Pos>, w: seq<Pos>, start: Pos, goal: Pos)
    requires WellFormed(g) && IsWalk(g, m, w, start, goal) && start in keys
    requires forall p :: p in keys ==> forall q :: q in Neighbors(g, m, p) ==> q in keys
    ensures goal in keys
  {
    var i := 0;
    while i < |w| - 1
      invariant 0 <= i < |w| && w[i] in keys
    {
      assert w[i + 1] in Neighbors(g, m, w[i]);
      i := i + 1;
    }
  }

  /** Hence a goal outside such a set cannot be reached at all. */
  lemma Unreachable(g: Grid, m: map<Pos, Character>, keys: set<Pos>, start: Pos, goal: Pos)
    requires WellFormed(g) && start in keys
    requires forall p :: p in keys ==> forall q :: q in Neighbors(g, m, p) ==> q in keys
    ensures (exists w :: IsWalk(g, m, w, start, goal)) ==> goal in keys
  {
    if w :| IsWalk(g, m, w, start, goal) {
      WalkStaysInside(g, m, keys, w, start, goal);
    }
  }

  /**
   * The path reconstruction of `astar`: walks the parents from `goal` back to
   * `start`, appends `start`, and reverses the slice in place.
   */
  method Reconstruct(level: Level, start: Pos, goal: Pos, cameFrom: map<Pos, Pos>, cost: map<Pos, int>)
    returns (path: seq<Pos>)
    requires level.Valid() && Tree(level.tiles, level.monsters, start, cameFrom, cost) && goal in cost
    ensures path == Reversed(BackChain(start, cameFrom, cost, goal))
  {
    path := CollectChain(start, goal, cameFrom, cost);
    path := ReverseInPlace(path);
  }

  /** One parent step: the chain from `p` is `p` followed by the chain from its parent, whose cost is lower. */
  lemma BackChainStep(start: Pos, cameFrom: map<Pos, Pos>, cost: map<Pos, int>, p: Pos)
    requires Descending(start, cameFrom, cost) && p in cost && p != start
    ensures cameFrom[p] in cost && cost[cameFrom[p]] < cost[p]
    ensures BackChain(start, cameFrom, cost, p) == [p] + BackChain(start, cameFrom, cost, cameFrom[p])
  {
  }

  /** The parent-walking loop of the reconstruction. */
  method CollectChain(start: Pos, goal: Pos, cameFrom: map<Pos, Pos>, cost: map<Pos, int>)
    returns (path: seq<Pos>)
    requires Descending(start, cameFrom, cost) && goal in cost
    ensures path == BackChain(start, cameFrom, cost, goal)
  {
    ghost var chain := BackChain(start, cameFrom, cost, goal);
    path := [];
    var p := goal;
    while p != start
      invariant p in cost && path + BackChain(start, cameFrom, cost, p) == chain
      decreases cost[p]
    {
      BackChainStep(start, cameFrom, cost, p);
      ghost var rest := BackChain(start, cameFrom, cost, cameFrom[p]);
      assert (path + [p]) + rest == path + ([p] + rest);
      path := path + [p];
      p := cameFrom[p];
    }
    assert BackChain(start, cameFrom, cost, p) == [p];
    path := path + [p];
  }

  /** The in-place reversal loop at the end of `astar`'s path reconstruction. */
  method ReverseInPlace(s: seq<Pos>) returns (r: seq<Pos>)
    ensures r == Reversed(s)
  {
    r := s;
    var i, j := 0, |s| - 1;
    while i < j
      invariant |r| == |s| && 0 <= i && j == |s| - 1 - i && i <= j + 1
      invariant forall k :: 0 <= k < i ==> r[k] == s[|s| - 1 - k] && r[|s| - 1 - k] == s[k]
      invariant forall k :: i <= k <= j ==> r[k] == s[k]
    {
      var a, b := r[i], r[j];
      r := r[i := b][j := a];
      i, j := i + 1, j - 1;
    }
  }

  /** After a pop of anything but the goal, the neighbour loop can start: its invariant holds with nothing relaxed. */
  lemma PopKeeps(g: Grid, m: map<Pos, Character>, start: Pos, goal: Pos, frontier: seq<Entry>,
                 cameFrom: map<Pos, Pos>, cost: map<Pos, int>, bound: int, rest: seq<Entry>, e: Entry)
    requires WellFormed(g) && Searching(g, m, start, goal, frontier, cameFrom, cost)
    requires e in frontier && e.pos != goal && forall x :: x in frontier <==> x in rest || x == e
    ensures Relaxing(g, m, start, goal, e.pos, rest, cost, bound, [], 0, rest, cameFrom, cost, e.pos)
  {
    var current := e.pos;
    forall p | p in cost && p != current && InFrontier(frontier, p) ensures InFrontier(rest, p) {
      var i :| 0 <= i < |frontier| && frontier[i].pos == p;
      assert frontier[i] in rest;
      var k :| 0 <= k < |rest| && rest[k] == frontier[i];
    }
    assert current in cost by {
      var i :| 0 <= i < |frontier| && frontier[i] == e;
    }
    forall i | 0 <= i < |rest| ensures rest[i].pos in cost {
      assert rest[i] in frontier;
    }
  }

  /**
   * The body of `astar`'s loop after popping `e`, which is not the goal: its
   * neighbours are relaxed. The search invariant is kept, and the costs went
   * down or else nothing but the pop changed, so the loop makes progress.
   */
  method ExpandPopped(g: Grid, m: map<Pos, Character>, start: Pos, goal: Pos, frontier: seq<Entry>,
                      cameFrom: map<Pos, Pos>, cost: map<Pos, int>, rest: seq<Entry>, e: Entry,
                      ghost cs: seq<Pos>, ghost bound: int)
    returns (frontier': seq<Entry>, cameFrom': map<Pos, Pos>, cost': map<Pos, int>)
    requires WellFormed(g) && cs == Cells(|g[0]|, |g|) && bound == |Universe(g) + {start}| + 1
    requires Searching(g, m, start, goal, frontier, cameFrom, cost)
    requires e in frontier && e.pos != goal && |rest| < |frontier| && forall x :: x in frontier <==> x in rest || x == e
    ensures Searching(g, m, start, goal, frontier', cameFrom', cost')
    ensures Potential(cs, cost', bound) >= 0
    ensures Potential(cs, cost', bound) < Potential(cs, cost, bound) ||
      (Potential(cs, cost', bound) == Potential(cs, cost, bound) && |frontier'| < |frontier|)
  {
    PopKeeps(g, m, start, goal, frontier, cameFrom, cost, bound, rest, e);
    ghost var q;
    frontier', cameFrom', cost', q := Expand(g, m, start, goal, e.pos, rest, cameFrom, cost, bound);
    if cost' != cost || frontier' != rest {
      PotentialLess(cs, cost, cost', bound, q);
    }
    PotentialNonneg(cs, cost', bound);
  }

  /**
   * `astar(start, goal)`: pops entries of least priority until it pops `goal`,
   * relaxing the neighbours of every other popped position. A non-empty result
   * is a walk from `start` to `goal`; an empty one (Go's nil) means no walk exists.
   */
  method Astar(level: Level, start: Pos, goal: Pos) returns (path: seq<Pos>)
    requires level.Valid()
    ensures path != [] ==> IsWalk(level.tiles, level.monsters, path, start, goal) && Simple(path)
    ensures path == [] ==> forall w :: !IsWalk(level.tiles, level.monsters, w, start, goal)
  {
    ghost var g, m := level.tiles, level.monsters;
    ghost var cs := Cells(|g[0]|, |g|);
    ghost var bound := |Universe(g) + {start}| + 1;
    var frontier := [Entry(start, 1)];
    var cameFrom := map[start := start];
    var cost := map[start := 0];
    assert frontier[0].pos == start;
    PotentialNonneg(cs, cost, bound);
    while |frontier| > 0
      invariant Searching(g, m, start, goal, frontier, cameFrom, cost)
      invariant Potential(cs, cost, bound) >= 0
      decreases Potential(cs, cost, bound), |frontier|
    {
      var rest, e := Pop(frontier);
      var current := e.pos;
      if current == goal {
        path := Reconstruct(level, start, goal, cameFrom, cost);
        BackChainWalk(g, m, start, cameFrom, cost, goal);
        BackChainSimple(start, cameFrom, cost, goal);
        ReversedSimple(BackChain(start, cameFrom, cost, goal));
        return;
      }
      frontier, cameFrom, cost := ExpandPopped(level.tiles, level.monsters, start, goal, frontier, cameFrom, cost, rest, e, cs, bound);
    }
    path := [];
    assert forall p :: p in cost ==> Expanded(g, m, cost, p);
    Unreachable(g, m, cost.Keys, start, goal);
  }
}
