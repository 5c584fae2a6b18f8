// The automated turn (executeAutomatedTurn): every unit of the acting side
// that is alive and has action points attacks the best target in range, or
// walks towards the best target along a breadth-first search, until its
// action points run out; then the turn is handed over. The neighbour order
// of the search, which the source shuffles, is drawn from an oracle.
module AutoTurn {
  import opened Types
  import opened Constants
  import opened Rules
  import opened Sorting
  import opened Combat

  function Opponent(side: Allegiance): Allegiance
  {
    if side == Player then Enemy else Player
  }

  // ----- the neighbour order of the search -----

  /** The neighbours in the order the source lists them before shuffling: x + 1, x - 1, y + 1, y - 1. */
  const LISTED: seq<Direction> := [East, West, North, South]

  function Without(ds: seq<Direction>, k: nat): (r: seq<Direction>)
    requires k < |ds|
    ensures |r| == |ds| - 1
  {
    ds[..k] + ds[k + 1..]
  }

  lemma WithoutPermutes(ds: seq<Direction>, k: nat)
    requires k < |ds|
    ensures multiset(Without(ds, k)) + multiset{ds[k]} == multiset(ds)
  {
    assert ds == ds[..k] + [ds[k]] + ds[k + 1..];
  }

  /**
   * The `n`-th ordering of `ds` (in the factorial number system), so that
   * every ordering is some draw.
   */
  function Ordering(ds: seq<Direction>, n: nat): (r: seq<Direction>)
    ensures |r| == |ds|
    decreases |ds|
  {
    if |ds| == 0 then []
    else
      var k := n % |ds|;
      [ds[k]] + Ordering(Without(ds, k), n / |ds|)
  }

  lemma {:induction false} OrderingPermutes(ds: seq<Direction>, n: nat)
    ensures multiset(Ordering(ds, n)) == multiset(ds)
    decreases |ds|
  {
    if |ds| > 0 {
      var k := n % |ds|;
      OrderingPermutes(Without(ds, k), n / |ds|);
      WithoutPermutes(ds, k);
    }
  }

  /** `neighbors.sort(() => Math.random() - 0.5)`, its outcome drawn from the oracle. */
  function Shuffled(rand: nat -> nat, draw: nat): (r: seq<Direction>)
    ensures |r| == 4
  {
    Ordering(LISTED, rand(draw))
  }

  /** The shuffled neighbours are the listed ones, each once. */
  lemma ShuffledPermutes(rand: nat -> nat, draw: nat)
    ensures multiset(Shuffled(rand, draw)) == multiset(LISTED)
  {
    OrderingPermutes(LISTED, rand(draw));
  }

  // ----- the tiles a unit may step on -----

  /** Another living unit stands on `p`. */
  predicate Blocked(units: seq<Unit>, id: string, p: Position)
  {
    exists u :: u in units && u.health > 0 && u.id != id && u.pos == p
  }

  /** The search may step on `p`: on the board, walkable, no obstacle, no other living unit. */
  predicate Passable(g: Grid, units: seq<Unit>, id: string, p: Position)
    requires WellFormedGrid(g)
  {
    InBounds(p) && TileAt(g, p).walkable && !TileAt(g, p).obstacle && !Blocked(units, id, p)
  }

  predicate Adjacent(a: Position, b: Position)
  {
    Manhattan(a, b) == 1
  }

  /** `path` is a walk from `start`, one orthogonal step at a time, over passable tiles. */
  predicate IsWalk(g: Grid, units: seq<Unit>, id: string, start: Position, path: seq<Position>)
    requires WellFormedGrid(g)
  {
    && (forall i :: 0 <= i < |path| ==> Passable(g, units, id, path[i]))
    && (|path| > 0 ==> Adjacent(start, path[0]))
    && (forall i :: 0 < i < |path| ==> Adjacent(path[i - 1], path[i]))
  }

  /** A walk never ends farther from its start than its length. */
  lemma {:induction false} WalkStaysNear(g: Grid, units: seq<Unit>, id: string, start: Position, path: seq<Position>)
    requires WellFormedGrid(g) && IsWalk(g, units, id, start, path) && |path| > 0
    ensures Manhattan(start, path[|path| - 1]) <= |path|
    decreases |path|
  {
    var n := |path| - 1;
    if n > 0 {
      var prefix := path[..n];
      assert Adjacent(path[n - 1], path[n]);
      WalkStaysNear(g, units, id, start, prefix);
    }
  }

  /** Some orthogonal neighbour of `p` is an obstacle (the cover test of the search). */
  predicate NextToObstacle(g: Grid, p: Position)
    requires WellFormedGrid(g)
  {
    exists d :: ObstacleAt(g, Neighbour(p, d))
  }

  lemma CoveredNeighbours(g: Grid, p: Position)
    requires WellFormedGrid(g)
    ensures NextToObstacle(g, p) ==>
      ObstacleAt(g, Neighbour(p, West)) || ObstacleAt(g, Neighbour(p, East))
      || ObstacleAt(g, Neighbour(p, South)) || ObstacleAt(g, Neighbour(p, North))
  {
    if NextToObstacle(g, p) {
      var d :| ObstacleAt(g, Neighbour(p, d));
      match d
      case West =>
      case East =>
      case South =>
      case North =>
    }
  }

  function CoveredTile(g: Grid, p: Position): (r: bool)
    requires WellFormedGrid(g)
    ensures r == NextToObstacle(g, p)
  {
    var r := ObstacleAt(g, Neighbour(p, West)) || ObstacleAt(g, Neighbour(p, East))
             || ObstacleAt(g, Neighbour(p, South)) || ObstacleAt(g, Neighbour(p, North));
    CoveredNeighbours(g, p);
    r
  }

  // ----- bounding the search -----

  const TILE_COUNT: int := GRID_SIZE_X * GRID_SIZE_Z

  function TileNumber(n: nat): Position
  {
    Position(n / GRID_SIZE_Z, n % GRID_SIZE_Z)
  }

  function TilesBelow(n: nat): set<Position>
  {
    set i | 0 <= i < n :: TileNumber(i)
  }

  lemma {:induction false} TilesBelowCard(n: nat)
    ensures |TilesBelow(n)| <= n
  {
    if n > 0 {
      TilesBelowCard(n - 1);
      assert TilesBelow(n) == TilesBelow(n - 1) + {TileNumber(n - 1)};
    }
  }

  /** At most TILE_COUNT positions lie on the board. */
  lemma OnBoardCard(v: set<Position>)
    requires forall p :: p in v ==> InBounds(p)
    ensures |v| <= TILE_COUNT
  {
    forall p | p in v ensures p in TilesBelow(TILE_COUNT) {
      var n := p.x * GRID_SIZE_Z + p.y;
      assert 0 <= n < TILE_COUNT;
      assert n / GRID_SIZE_Z == p.x && n % GRID_SIZE_Z == p.y;
      assert TileNumber(n) == p;
    }
    TilesBelowCard(TILE_COUNT);
    SubsetCard(v, TilesBelow(TILE_COUNT));
  }

  /** A set of tiles all on the board but one has at most TILE_COUNT + 1 elements. */
  lemma VisitedCard(v: set<Position>, start: Position)
    requires forall p :: p in v ==> InBounds(p) || p == start
    ensures |v| <= TILE_COUNT + 1
  {
    OnBoardCard(v - {start});
  }

  lemma {:induction false} SubsetCard(a: set<Position>, b: set<Position>)
    requires a <= b
    ensures |a| <= |b|
    decreases |a|
  {
    if a != {} {
      var p :| p in a;
      SubsetCard(a - {p}, b - {p});
    }
  }

  // ----- the breadth-first search for moves -----

  /** A tile the unit could move to, with the figures the choice is made by. */
  datatype Candidate = Candidate(pos: Position, distance: int, pathLength: nat, covered: bool)

  datatype QueueEntry = QueueEntry(pos: Position, path: seq<Position>)

  /** The last tile of a walk, or its start for the empty walk. */
  function EndOf(start: Position, path: seq<Position>): Position
  {
    if |path| == 0 then start else path[|path| - 1]
  }

  /** What the search promises about one candidate and the walk it was found by. */
  predicate Found(g: Grid, units: seq<Unit>, u: Unit, target: Position, c: Candidate, path: seq<Position>)
    requires WellFormedGrid(g)
  {
    && Passable(g, units, u.id, c.pos) && c.pos != u.pos
    && 1 <= c.pathLength <= u.moveSpeed
    && IsWalk(g, units, u.id, u.pos, path) && |path| == c.pathLength && path[|path| - 1] == c.pos
    && c.distance == Manhattan(c.pos, target)
    && c.covered == NextToObstacle(g, c.pos)
  }

  /** What holds of the search between steps. */
  predicate SearchOk(g: Grid, units: seq<Unit>, u: Unit, target: Position, visited: set<Position>,
                     moves: seq<Candidate>, paths: seq<seq<Position>>, queue: seq<QueueEntry>)
    requires WellFormedGrid(g)
  {
    && u.pos in visited && |paths| == |moves|
    && (forall p :: p in visited ==> InBounds(p) || p == u.pos)
    && (forall i :: 0 <= i < |moves| ==> Found(g, units, u, target, moves[i], paths[i]) && moves[i].pos in visited)
    && (forall i, j :: 0 <= i < j < |moves| ==> moves[i].pos != moves[j].pos)
    && (forall q :: q in queue ==> IsWalk(g, units, u.id, u.pos, q.path) && q.pos == EndOf(u.pos, q.path))
  }

  /**
   * One neighbour `nb` of the tile `head` was taken from the queue for: if it
   * is passable and not yet visited it is marked visited and, when the walk
   * to it is short enough, it becomes a candidate and is queued.
   */
  method Consider(g: Grid, units: seq<Unit>, u: Unit, target: Position, head: QueueEntry, nb: Position,
                  visited: set<Position>, moves: seq<Candidate>, paths: seq<seq<Position>>, queue: seq<QueueEntry>)
    returns (visited': set<Position>, moves': seq<Candidate>, paths': seq<seq<Position>>, queue': seq<QueueEntry>)
    requires WellFormedGrid(g) && SearchOk(g, units, u, target, visited, moves, paths, queue)
    requires IsWalk(g, units, u.id, u.pos, head.path) && head.pos == EndOf(u.pos, head.path) && Adjacent(head.pos, nb)
    ensures SearchOk(g, units, u, target, visited', moves', paths', queue')
    ensures visited' == if Passable(g, units, u.id, nb) && nb !in visited then visited + {nb} else visited
    ensures |queue'| <= |queue| + |visited'| - |visited|
    ensures moves' == if Passable(g, units, u.id, nb) && nb !in visited && |head.path| + 1 <= u.moveSpeed
                      then moves + [Candidate(nb, Manhattan(nb, target), |head.path| + 1, NextToObstacle(g, nb))]
                      else moves
  {
    visited', moves', paths', queue' := visited, moves, paths, queue;
    if InBounds(nb) && nb !in visited && TileAt(g, nb).walkable && !TileAt(g, nb).obstacle && !Blocked(units, u.id, nb) {
      visited' := visited + {nb};
      var distance := Manhattan(nb, target);
      var covered := CoveredTile(g, nb);
      if |head.path| + 1 <= u.moveSpeed {
        var path := head.path + [nb];
        ExtendWalk(g, units, u.id, u.pos, head.path, nb);
        moves' := moves + [Candidate(nb, distance, |head.path| + 1, covered)];
        paths' := paths + [path];
        queue' := queue + [QueueEntry(nb, path)];
      }
    }
  }

  /** A walk extended by one passable, adjacent tile is a walk. */
  lemma ExtendWalk(g: Grid, units: seq<Unit>, id: string, start: Position, path: seq<Position>, nb: Position)
    requires WellFormedGrid(g) && IsWalk(g, units, id, start, path)
    requires Passable(g, units, id, nb) && Adjacent(EndOf(start, path), nb)
    ensures IsWalk(g, units, id, start, path + [nb])
  {
    var p := path + [nb];
    forall i | 0 <= i < |p| ensures Passable(g, units, id, p[i]) {
      if i < |path| { assert p[i] == path[i]; }
    }
    forall i | 0 < i < |p| ensures Adjacent(p[i - 1], p[i]) {
      if i < |path| { assert p[i] == path[i] && p[i - 1] == path[i - 1]; }
    }
  }

  /** The four neighbours of `head`, in the order of draw `draw`, are considered in turn. */
  method Expand(g: Grid, units: seq<Unit>, u: Unit, target: Position, head: QueueEntry, rand: nat -> nat, draw: nat,
                visited: set<Position>, moves: seq<Candidate>, paths: seq<seq<Position>>, queue: seq<QueueEntry>)
    returns (visited': set<Position>, moves': seq<Candidate>, paths': seq<seq<Position>>, queue': seq<QueueEntry>)
    requires WellFormedGrid(g) && SearchOk(g, units, u, target, visited, moves, paths, queue)
    requires IsWalk(g, units, u.id, u.pos, head.path) && head.pos == EndOf(u.pos, head.path)
    ensures SearchOk(g, units, u, target, visited', moves', paths', queue')
    ensures |visited| <= |visited'| && |queue'| <= |queue| + |visited'| - |visited|
  {
    var order := Shuffled(rand, draw);
    visited', moves', paths', queue' := visited, moves, paths, queue;
    for k := 0 to 4
      invariant SearchOk(g, units, u, target, visited', moves', paths', queue')
      invariant |visited| <= |visited'| && |queue'| <= |queue| + |visited'| - |visited|
    {
      NeighbourAdjacent(head.pos, order[k]);
      visited', moves', paths', queue' := Consider(g, units, u, target, head, Neighbour(head.pos, order[k]), visited', moves', paths', queue');
    }
  }

  /**
   * The search of the move step: from the unit's tile, tiles are visited
   * breadth first, each at most once, up to `moveSpeed` steps away; every
   * tile reached becomes a candidate, with the walk that reached it.
   */
  method FindMoves(g: Grid, units: seq<Unit>, u: Unit, target: Position, rand: nat -> nat, draw: nat)
    returns (moves: seq<Candidate>, paths: seq<seq<Position>>, nextDraw: nat)
    requires WellFormedGrid(g)
    ensures |paths| == |moves| && nextDraw >= draw
    ensures forall i :: 0 <= i < |moves| ==> Found(g, units, u, target, moves[i], paths[i])
    ensures forall i, j :: 0 <= i < j < |moves| ==> moves[i].pos != moves[j].pos
  {
    var queue := [QueueEntry(u.pos, [])];
    var visited := {u.pos};
    moves, paths, nextDraw := [], [], draw;
    while |queue| > 0
      invariant SearchOk(g, units, u, target, visited, moves, paths, queue) && nextDraw >= draw
      decreases TILE_COUNT + 1 - |visited|, |queue|
    {
      VisitedCard(visited, u.pos);
      var head := queue[0];
      assert head in queue;
      queue := queue[1..];
      if |head.path| < u.moveSpeed {
        visited, moves, paths, queue := Expand(g, units, u, target, head, rand, nextDraw, visited, moves, paths, queue);
        nextDraw := nextDraw + 1;
      }
      VisitedCard(visited, u.pos);
    }
  }

  lemma NeighbourAdjacent(p: Position, d: Direction)
    ensures Adjacent(p, Neighbour(p, d))
  {
  }

  // ----- choosing the destination -----

  /** `possibleMoves.sort(...)`: tiles next to an obstacle first, then nearer the target, then shorter walks. */
  function MoveKey(c: Candidate): Key
  {
    Key(if c.covered then 0 else 1, c.distance, c.pathLength)
  }

  /** Where `possibleMoves[0]` stood before the sort: the first candidate with the least key. */
  function BestMove(moves: seq<Candidate>): (i: nat)
    requires |moves| > 0
    ensures i < |moves|
    ensures forall j :: 0 <= j < |moves| ==> KeyLe(MoveKey(moves[i]), MoveKey(moves[j]))
    ensures forall j :: 0 <= j < i ==> KeyLt(MoveKey(moves[i]), MoveKey(moves[j]))
  {
    FirstLeast(moves, MoveKey)
  }

  /** The sort followed by `[0]` picks the candidate BestMove names. */
  lemma BestMoveIsSortedHead(moves: seq<Candidate>)
    requires |moves| > 0
    ensures SortByKey(moves, MoveKey)[0] == moves[BestMove(moves)]
  {
    SortedHeadIsFirstLeast(moves, MoveKey);
  }

  /**
   * The preference spelled out: a covered tile if there is one; among tiles
   * equally covered, the nearest to the target; among those, the shortest walk.
   */
  lemma BestMovePreferred(moves: seq<Candidate>, j: nat)
    requires j < |moves|
    ensures var b := moves[BestMove(moves)];
      && (moves[j].covered ==> b.covered)
      && (moves[j].covered == b.covered ==> b.distance <= moves[j].distance)
      && (moves[j].covered == b.covered && moves[j].distance == b.distance ==> b.pathLength <= moves[j].pathLength)
  {
    assert KeyLe(MoveKey(moves[BestMove(moves)]), MoveKey(moves[j]));
  }

  // ----- choosing the target -----

  /** The living units of the other side, in list order (`potentialTargets` before the sort). */
  function Opponents(units: seq<Unit>, side: Allegiance): (r: seq<Unit>)
    ensures |r| <= |units|
    ensures forall t :: t in r <==> t in units && t.allegiance == Opponent(side) && t.health > 0
  {
    if |units| == 0 then []
    else
      var last := units[|units| - 1];
      assert units == units[..|units| - 1] + [last];
      Opponents(units[..|units| - 1], side) + (if last.allegiance == Opponent(side) && last.health > 0 then [last] else [])
  }

  /** The target would get half cover against the attacker. */
  predicate InCover(a: Unit, g: Grid, t: Unit)
  {
    WellFormedGrid(g) && CoverBenefit(a.pos, t.pos, g) > 0
  }

  /** One hit of the attacker (less the cover reduction) would destroy the target. */
  predicate Killable(a: Unit, g: Grid, t: Unit)
  {
    t.health <= a.attackDamage - (if InCover(a, g, t) then HALF_COVER_DAMAGE_REDUCTION else 0)
  }

  /** `potentialTargets.sort(...)`: targets out of cover first, then those one hit destroys, then the weakest. */
  function TargetKey(a: Unit, g: Grid): Unit -> Key
  {
    t => Key(if InCover(a, g, t) then 1 else 0, if Killable(a, g, t) then 0 else 1, t.health)
  }

  function TargetOrder(a: Unit, g: Grid, targets: seq<Unit>): (r: seq<Unit>)
    ensures |r| == |targets|
  {
    SortByKey(targets, TargetKey(a, g))
  }

  /** The order keeps exactly the targets it was given. */
  lemma TargetOrderMembers(a: Unit, g: Grid, targets: seq<Unit>)
    ensures forall t :: t in TargetOrder(a, g, targets) <==> t in targets
  {
    var r := TargetOrder(a, g, targets);
    forall t ensures t in r <==> t in targets {
      assert t in r <==> t in multiset(r);
      assert t in targets <==> t in multiset(targets);
    }
  }

  /**
   * The priority spelled out: an earlier target is out of cover if a later
   * one is; equally covered, it is killable if a later one is; equal in
   * both, it has no more health.
   */
  lemma TargetPriority(a: Unit, g: Grid, targets: seq<Unit>, i: nat, j: nat)
    requires i < j < |targets|
    ensures var r := TargetOrder(a, g, targets);
      && (InCover(a, g, r[i]) ==> InCover(a, g, r[j]))
      && (InCover(a, g, r[i]) == InCover(a, g, r[j]) && Killable(a, g, r[j]) ==> Killable(a, g, r[i]))
      && (InCover(a, g, r[i]) == InCover(a, g, r[j]) && Killable(a, g, r[i]) == Killable(a, g, r[j])
          ==> r[i].health <= r[j].health)
  {
    SortByKeySorted(targets, TargetKey(a, g));
    var r := TargetOrder(a, g, targets);
    assert KeyLe(TargetKey(a, g)(r[i]), TargetKey(a, g)(r[j]));
  }

  /** The target is within the attacker's range (the automated turn does not exclude distance 0). */
  predicate InReach(a: Unit, t: Unit)
  {
    Manhattan(a.pos, t.pos) <= a.attackRange
  }

  /** The first target in the sorted list that is within range, if any. */
  method FirstInReach(a: Unit, targets: seq<Unit>) returns (r: Option<nat>)
    ensures r.Some? ==> r.value < |targets| && InReach(a, targets[r.value])
    ensures forall j :: 0 <= j < |targets| && (r.None? || j < r.value) ==> !InReach(a, targets[j])
  {
    r := None;
    var i := 0;
    while i < |targets|
      invariant 0 <= i <= |targets|
      invariant forall j :: 0 <= j < i ==> !InReach(a, targets[j])
    {
      if Manhattan(a.pos, targets[i].pos) <= a.attackRange {
        return Some(i);
      }
      i := i + 1;
    }
  }

  // ----- one unit's actions -----

  const MSG_AI_ATTACK := "unit attacks"
  const MSG_AI_DESTROYED := "target destroyed"
  const MSG_AI_MOVE := "unit moves"
  const MSG_AI_DONE := "unit has finished acting"

  /**
   * What a turn of `side` may do to one unit: a unit of that side moves,
   * spends points and scores kills; any other unit only loses health.
   */
  predicate Evolved(u: Unit, v: Unit, side: Allegiance)
  {
    if u.allegiance == side then
      && v == u.(pos := v.pos, ap := v.ap, hasMoved := v.hasMoved, kills := v.kills)
      && v.ap <= u.ap && u.kills <= v.kills && (u.hasMoved ==> v.hasMoved)
    else
      v == u.(health := v.health) && v.health <= u.health
  }

  predicate TurnEvolved(before: seq<Unit>, after: seq<Unit>, side: Allegiance)
  {
    |after| == |before| && forall j :: 0 <= j < |before| ==> Evolved(before[j], after[j], side)
  }

  lemma TurnEvolvedTransitive(a: seq<Unit>, b: seq<Unit>, c: seq<Unit>, side: Allegiance)
    requires TurnEvolved(a, b, side) && TurnEvolved(b, c, side)
    ensures TurnEvolved(a, c, side)
  {
    forall j | 0 <= j < |a| ensures Evolved(a[j], c[j], side) {
      assert Evolved(a[j], b[j], side) && Evolved(b[j], c[j], side);
    }
  }

  /** Ids stay where they were, so lookups and unique ids carry over. */
  lemma TurnEvolvedLookups(a: seq<Unit>, b: seq<Unit>, side: Allegiance)
    requires TurnEvolved(a, b, side)
    ensures forall id :: IndexOf(b, id) == IndexOf(a, id)
    ensures forall j :: 0 <= j < |a| ==> b[j].id == a[j].id && b[j].allegiance == a[j].allegiance
    ensures UniqueIds(a) ==> UniqueIds(b)
  {
    assert forall j :: 0 <= j < |a| ==> Evolved(a[j], b[j], side);
    forall id ensures IndexOf(b, id) == IndexOf(a, id) {
      SameIdsSameIndex(a, b, id);
    }
    if UniqueIds(a) {
      SameIdsUnique(a, b);
    }
  }

  /** The target is still in the list, on the other side. */
  predicate Tracked(units: seq<Unit>, t: Unit, side: Allegiance)
  {
    IndexOf(units, t.id).Some? && units[IndexOf(units, t.id).value].allegiance == Opponent(side)
  }

  lemma TrackedKept(a: seq<Unit>, b: seq<Unit>, side: Allegiance, targets: seq<Unit>)
    requires TurnEvolved(a, b, side) && forall t :: t in targets ==> Tracked(a, t, side)
    ensures forall t :: t in targets ==> Tracked(b, t, side)
  {
    TurnEvolvedLookups(a, b, side);
  }

  /** `potentialTargets.filter(t => t.id !== id)`. */
  function WithoutId(targets: seq<Unit>, id: string): (r: seq<Unit>)
    ensures forall t :: t in r <==> t in targets && t.id != id
  {
    if |targets| == 0 then []
    else
      var last := targets[|targets| - 1];
      assert targets == targets[..|targets| - 1] + [last];
      WithoutId(targets[..|targets| - 1], id) + (if last.id != id then [last] else [])
  }

  /** The automated attack: the attacker's damage less the target's cover, never below zero; no steady aim. */
  function AiDamage(a: Unit, t: Unit, g: Grid): (d: int)
    requires WellFormedGrid(g)
    ensures d >= 0
    ensures d >= a.attackDamage - CoverBenefit(a.pos, t.pos, g)
    ensures d == 0 || d == a.attackDamage - CoverBenefit(a.pos, t.pos, g)
  {
    var base := a.attackDamage - CoverBenefit(a.pos, t.pos, g);
    if base > 0 then base else 0
  }

  /** Health after `d` damage, clamped to 0 as the automated turn does. */
  function Damaged(health: int, d: int): (h: int)
    ensures h >= 0 && (h == 0 || h == health - d) && h >= health - d
  {
    if health - d > 0 then health - d else 0
  }

  /** The unit list after unit `k` hit unit `j` for `d`: one point spent, the kill credited. */
  function Strike(units: seq<Unit>, k: nat, j: nat, d: int): (r: seq<Unit>)
    requires k < |units| && j < |units|
  {
    var h := Damaged(units[j].health, d);
    var a := units[k];
    units[k := a.(ap := a.ap - 1, kills := a.kills + KillCredit(a, Some(units[j]), h))][j := units[j].(health := h)]
  }

  lemma StrikeFacts(units: seq<Unit>, k: nat, j: nat, d: int, side: Allegiance, r: seq<Unit>)
    requires UnitsOk(units) && k < |units| && j < |units| && d >= 0
    requires units[k].allegiance == side && units[j].allegiance != side && units[k].ap > 0
    requires r == Strike(units, k, j, d)
    ensures UnitsOk(r) && TurnEvolved(units, r, side)
    ensures r[k].ap == units[k].ap - 1
    ensures r[k].kills == units[k].kills + KillCredit(units[k], Some(units[j]), r[j].health)
    ensures r[j].health == Damaged(units[j].health, d)
    ensures forall i :: 0 <= i < |units| && i != k && units[i].allegiance == side ==> r[i] == units[i]
  {
    forall i | 0 <= i < |units| ensures Evolved(units[i], r[i], side) {
      if i != k && i != j { assert r[i] == units[i]; }
    }
    TurnEvolvedLookups(units, r, side);
  }

  /** The unit list after unit `k` stepped to `p`. */
  function Stepped(units: seq<Unit>, k: nat, p: Position): (r: seq<Unit>)
    requires k < |units|
  {
    units[k := units[k].(pos := p, ap := units[k].ap - 1, hasMoved := true)]
  }

  lemma StepFacts(units: seq<Unit>, k: nat, p: Position, side: Allegiance, r: seq<Unit>)
    requires UnitsOk(units) && k < |units| && InBounds(p)
    requires units[k].allegiance == side && units[k].ap > 0
    requires r == Stepped(units, k, p)
    ensures UnitsOk(r) && TurnEvolved(units, r, side)
    ensures r[k].ap == units[k].ap - 1 && r[k].pos == p
    ensures forall i :: 0 <= i < |units| && i != k ==> r[i] == units[i]
  {
    forall i | 0 <= i < |units| ensures Evolved(units[i], r[i], side) {
      if i != k { assert r[i] == units[i]; }
    }
    TurnEvolvedLookups(units, r, side);
  }

  /** No other living unit stands on unit `k`'s tile. */
  predicate Alone(units: seq<Unit>, k: nat)
    requires k < |units|
  {
    forall j :: 0 <= j < |units| && j != k && units[j].health > 0 ==> units[j].pos != units[k].pos
  }

  lemma UnblockedAlone(units: seq<Unit>, k: nat, p: Position, r: seq<Unit>)
    requires UniqueIds(units) && k < |units| && !Blocked(units, units[k].id, p)
    requires r == Stepped(units, k, p)
    ensures Alone(r, k)
  {
    forall j | 0 <= j < |r| && j != k && r[j].health > 0 ensures r[j].pos != r[k].pos {
      UniqueIndexOf(units, j);
      UniqueIndexOf(units, k);
      assert r[j] == units[j] && units[j] in units;
    }
  }

  /** Only health changes (an attack) leave the actor alone on its tile. */
  lemma AloneAfterStrike(us: seq<Unit>, vs: seq<Unit>, k: nat, side: Allegiance)
    requires TurnEvolved(us, vs, side) && k < |us| && Alone(us, k)
    requires forall i :: 0 <= i < |us| && us[i].allegiance == side ==> vs[i].pos == us[i].pos
    ensures Alone(vs, k)
  {
    forall j | 0 <= j < |vs| && j != k && vs[j].health > 0 ensures vs[j].pos != vs[k].pos {
      assert Evolved(us[j], vs[j], side) && Evolved(us[k], vs[k], side);
    }
  }

  /** The tiles' terrain is what it was; only occupancy may differ. */
  ghost predicate SameTerrain(g: Grid, h: Grid)
  {
    WellFormedGrid(g) && WellFormedGrid(h) &&
    forall p :: InBounds(p) ==> TileAt(h, p).walkable == TileAt(g, p).walkable && TileAt(h, p).obstacle == TileAt(g, p).obstacle
  }

  lemma OccupancyKeepsTerrain(g0: Grid, g: Grid, p: Position, b: bool)
    requires SameTerrain(g0, g) && InBounds(p)
    ensures SameTerrain(g0, SetOccupied(g, p, b))
  {
  }

  /** What holds between the actions of unit `k`, against the list and grid it started from. */
  ghost predicate Acting(units: seq<Unit>, g: Grid, k: nat, side: Allegiance, cur: seq<Unit>, h: Grid, targets: seq<Unit>)
  {
    && UnitsOk(cur) && SameTerrain(g, h) && TurnEvolved(units, cur, side) && k < |units|
    && (forall j :: 0 <= j < |units| && j != k && units[j].allegiance == side ==> cur[j] == units[j])
    && (cur[k].pos == units[k].pos || Alone(cur, k))
    && (forall t :: t in targets ==> Tracked(cur, t, side))
  }

  /**
   * The shot (990-1036): unit `k` hits the target `t` for its damage less
   * cover, spends a point and is credited a kill; a destroyed target frees
   * its tile and leaves the target list.
   */
  method Shoot(ghost units: seq<Unit>, ghost g: Grid, cur: seq<Unit>, h: Grid, k: nat, hit: nat, targets: seq<Unit>, side: Allegiance)
    returns (next: seq<Unit>, h': Grid, targets': seq<Unit>, j: nat, d: int, destroyed: bool)
    requires Acting(units, g, k, side, cur, h, targets) && units[k].allegiance == side && cur[k].ap > 0 && hit < |targets|
    ensures Acting(units, g, k, side, next, h', targets') && next[k].ap == cur[k].ap - 1
    ensures IndexOf(cur, targets[hit].id) == Some(j) && j < |cur| && j < |next|
    ensures d == AiDamage(cur[k], targets[hit], h) && next == Strike(cur, k, j, d)
    ensures destroyed == (next[j].health <= 0)
    ensures h' == (if destroyed then SetOccupied(h, next[j].pos, false) else h)
    ensures targets' == (if destroyed then WithoutId(targets, targets[hit].id) else targets)
  {
    var t := targets[hit];
    assert t in targets;
    TurnEvolvedLookups(units, cur, side);
    j := IndexOf(cur, t.id).value;
    d := AiDamage(cur[k], t, h);
    next := Strike(cur, k, j, d);
    StrikeFacts(cur, k, j, d, side, next);
    AttackKeeps(units, cur, next, k, side, targets);
    destroyed := next[j].health <= 0;
    h', targets' := h, targets;
    if destroyed {
      OccupancyKeepsTerrain(g, h, next[j].pos, false);
      h' := SetOccupied(h, next[j].pos, false);
      targets' := WithoutId(targets, t.id);
    }
  }

  /**
   * The step (1039-1118): the search runs towards the first sorted target;
   * if it found tiles, unit `k` moves to the best of them, spending a point.
   */
  method Step(ghost units: seq<Unit>, ghost g: Grid, cur: seq<Unit>, h: Grid, k: nat, targets: seq<Unit>, side: Allegiance,
              rand: nat -> nat, draw: nat)
    returns (next: seq<Unit>, h': Grid, moves: seq<Candidate>, paths: seq<seq<Position>>, nextDraw: nat)
    requires Acting(units, g, k, side, cur, h, targets) && units[k].allegiance == side && cur[k].ap > 0 && |targets| > 0
    ensures Acting(units, g, k, side, next, h', targets) && nextDraw >= draw
    ensures |paths| == |moves|
    ensures forall i :: 0 <= i < |moves| ==> Found(h, cur, cur[k], targets[0].pos, moves[i], paths[i])
    ensures |moves| == 0 ==> next == cur && h' == h
    ensures |moves| > 0 ==>
      && next == Stepped(cur, k, moves[BestMove(moves)].pos) && next[k].ap == cur[k].ap - 1
      && h' == SetOccupied(SetOccupied(h, cur[k].pos, false), moves[BestMove(moves)].pos, true)
  {
    var a := cur[k];
    moves, paths, nextDraw := FindMoves(h, cur, a, targets[0].pos, rand, draw);
    next, h' := cur, h;
    if |moves| > 0 {
      var best := moves[BestMove(moves)].pos;
      assert Found(h, cur, a, targets[0].pos, moves[BestMove(moves)], paths[BestMove(moves)]);
      OccupancyKeepsTerrain(g, h, a.pos, false);
      OccupancyKeepsTerrain(g, SetOccupied(h, a.pos, false), best, true);
      h' := SetOccupied(SetOccupied(h, a.pos, false), best, true);
      TurnEvolvedLookups(units, cur, side);
      next := Stepped(cur, k, best);
      StepFacts(cur, k, best, side, next);
      UnblockedAlone(cur, k, best, next);
      MoveKeeps(units, cur, next, k, side, targets);
    }
  }

  /**
   * One unit's actions in the automated turn (976-1128): while it has action
   * points and the battle goes on, it shoots the first sorted target in
   * range or else walks to the best tile the search finds towards the first
   * sorted target; each action costs one point. It stops when neither is
   * possible, reporting that it is done if it did anything.
   */
  method UnitTurn(units: seq<Unit>, g: Grid, k: nat, targets: seq<Unit>, prev: GameOverState,
                  turn: int, side: Allegiance, rand: nat -> nat, draw: nat)
    returns (units': seq<Unit>, g': Grid, msgs: seq<string>, entries: seq<DamageEntry>, actions: nat, nextDraw: nat)
    requires WellFormedGrid(g) && UnitsOk(units) && k < |units| && units[k].allegiance == side
    requires forall t :: t in targets ==> Tracked(units, t, side)
    ensures UnitsOk(units') && SameTerrain(g, g') && TurnEvolved(units, units', side)
    ensures units'[k].ap == units[k].ap - actions && units'[k].ap >= 0
    ensures forall j :: 0 <= j < |units| && j != k && units[j].allegiance == side ==> units'[j] == units[j]
    ensures units'[k].pos == units[k].pos || Alone(units', k)
    ensures |entries| <= actions && nextDraw >= draw
  {
    units', g', msgs, entries, actions, nextDraw := units, g, [], [], 0, draw;
    var targets' := targets;
    while units'[k].ap > 0
      invariant Acting(units, g, k, side, units', g', targets')
      invariant units'[k].ap == units[k].ap - actions && units'[k].ap >= 0
      invariant |entries| <= actions && nextDraw >= draw
      decreases units'[k].ap
    {
      if GameOverStatus(units', prev) != Playing || |targets'| == 0 {
        break;
      }
      var hit := FirstInReach(units'[k], targets');
      if hit.Some? {
        var target := targets'[hit.value];
        var j, d, destroyed;
        units', g', targets', j, d, destroyed := Shoot(units, g, units', g', k, hit.value, targets', side);
        msgs := msgs + [MSG_AI_ATTACK] + (if destroyed then [MSG_AI_DESTROYED] else []);
        entries := entries + [DamageEntry(turn, side, d, target.name)];
        actions := actions + 1;
      } else {
        var moves, paths;
        units', g', moves, paths, nextDraw := Step(units, g, units', g', k, targets', side, rand, nextDraw);
        if |moves| == 0 {
          if actions > 0 {
            msgs := msgs + [MSG_AI_DONE];
          }
          break;
        }
        msgs := msgs + [MSG_AI_MOVE];
        actions := actions + 1;
      }
    }
  }

  /** The loop's frame after a shot. */
  lemma AttackKeeps(units: seq<Unit>, cur: seq<Unit>, next: seq<Unit>, k: nat, side: Allegiance, targets: seq<Unit>)
    requires TurnEvolved(units, cur, side) && TurnEvolved(cur, next, side) && k < |units|
    requires forall t :: t in targets ==> Tracked(cur, t, side)
    requires forall i :: 0 <= i < |units| && i != k && units[i].allegiance == side ==> cur[i] == units[i]
    requires forall i :: 0 <= i < |cur| && i != k && cur[i].allegiance == side ==> next[i] == cur[i]
    requires next[k].pos == cur[k].pos
    requires cur[k].pos == units[k].pos || Alone(cur, k)
    ensures TurnEvolved(units, next, side)
    ensures forall t :: t in targets ==> Tracked(next, t, side)
    ensures forall i :: 0 <= i < |units| && i != k && units[i].allegiance == side ==> next[i] == units[i]
    ensures next[k].pos == units[k].pos || Alone(next, k)
  {
    TurnEvolvedTransitive(units, cur, next, side);
    TrackedKept(cur, next, side, targets);
    TurnEvolvedLookups(units, cur, side);
    if cur[k].pos != units[k].pos {
      forall i | 0 <= i < |cur| && cur[i].allegiance == side ensures next[i].pos == cur[i].pos {
        if i != k { assert next[i] == cur[i]; }
      }
      AloneAfterStrike(cur, next, k, side);
    }
  }

  /** The loop's frame after a step. */
  lemma MoveKeeps(units: seq<Unit>, cur: seq<Unit>, next: seq<Unit>, k: nat, side: Allegiance, targets: seq<Unit>)
    requires TurnEvolved(units, cur, side) && TurnEvolved(cur, next, side) && k < |units|
    requires forall t :: t in targets ==> Tracked(cur, t, side)
    requires forall i :: 0 <= i < |units| && i != k && units[i].allegiance == side ==> cur[i] == units[i]
    requires forall i :: 0 <= i < |cur| && i != k ==> next[i] == cur[i]
    ensures TurnEvolved(units, next, side)
    ensures forall t :: t in targets ==> Tracked(next, t, side)
    ensures forall i :: 0 <= i < |units| && i != k && units[i].allegiance == side ==> next[i] == units[i]
  {
    TurnEvolvedTransitive(units, cur, next, side);
    TrackedKept(cur, next, side, targets);
  }
}

