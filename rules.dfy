// Pure tactical rules of the combat screen: grid construction, cover, game
// over, movement and attack highlights, the message log and highlight reset.
module Rules {
  import opened Types
  import opened Constants

  predicate InBounds(p: Position)
  {
    0 <= p.x < GRID_SIZE_X && 0 <= p.y < GRID_SIZE_Z
  }

  /** A GRID_SIZE_X × GRID_SIZE_Z grid. */
  predicate WellFormedGrid(g: Grid)
  {
    |g| == GRID_SIZE_X && forall i :: 0 <= i < |g| ==> |g[i]| == GRID_SIZE_Z
  }

  function TileAt(g: Grid, p: Position): Tile
    requires WellFormedGrid(g) && InBounds(p)
  {
    g[p.x][p.y]
  }

  /** `grid[p.x][p.y].isOccupied = b`. */
  function SetOccupied(g: Grid, p: Position, b: bool): (r: Grid)
    requires WellFormedGrid(g) && InBounds(p)
    ensures WellFormedGrid(r)
    ensures TileAt(r, p) == TileAt(g, p).(occupied := b)
    ensures forall q :: InBounds(q) && q != p ==> TileAt(r, q) == TileAt(g, q)
  {
    g[p.x := g[p.x][p.y := g[p.x][p.y].(occupied := b)]]
  }

  // ----- grid construction -----

  predicate LiveUnitAt(units: seq<Unit>, p: Position)
  {
    exists u :: u in units && u.pos == p && u.health > 0
  }

  function MakeTile(units: seq<Unit>, obstacles: seq<Position>, x: int, y: int): Tile
  {
    var isObstacle := Position(x, y) in obstacles;
    Tile(LiveUnitAt(units, Position(x, y)), !isObstacle, isObstacle, None)
  }

  /** createGridWithObjects. */
  function BuildGrid(units: seq<Unit>, obstacles: seq<Position>): (g: Grid)
    ensures WellFormedGrid(g)
    ensures forall p :: InBounds(p) ==>
      && TileAt(g, p).obstacle == (p in obstacles)
      && TileAt(g, p).walkable == !TileAt(g, p).obstacle
      && TileAt(g, p).occupied == LiveUnitAt(units, p)
      && TileAt(g, p).highlight == None
  {
    seq(GRID_SIZE_X, x => seq(GRID_SIZE_Z, y => MakeTile(units, obstacles, x, y)))
  }

  /** Every tile the grid builder marks as an obstacle is unwalkable, and every live unit's tile is occupied. */
  lemma BuildGridConsistent(units: seq<Unit>, obstacles: seq<Position>)
    ensures forall p :: InBounds(p) && TileAt(BuildGrid(units, obstacles), p).obstacle ==> !TileAt(BuildGrid(units, obstacles), p).walkable
    ensures forall u :: u in units && u.health > 0 && InBounds(u.pos) ==> TileAt(BuildGrid(units, obstacles), u.pos).occupied
  {
  }

  // ----- cover -----

  datatype Direction = West | East | South | North

  function Neighbour(t: Position, d: Direction): Position
  {
    match d
    case West => Position(t.x - 1, t.y)
    case East => Position(t.x + 1, t.y)
    case South => Position(t.x, t.y - 1)
    case North => Position(t.x, t.y + 1)
  }

  /** The attacker lies strictly beyond the obstacle `o`, measured along the direction's own axis only. */
  predicate Beyond(d: Direction, a: Position, o: Position)
  {
    match d
    case West => a.x < o.x
    case East => a.x > o.x
    case South => a.y < o.y
    case North => a.y > o.y
  }

  predicate ObstacleAt(g: Grid, p: Position)
    requires WellFormedGrid(g)
  {
    InBounds(p) && TileAt(g, p).obstacle
  }

  predicate CoveredFrom(g: Grid, a: Position, t: Position, d: Direction)
    requires WellFormedGrid(g)
  {
    ObstacleAt(g, Neighbour(t, d)) && Beyond(d, a, Neighbour(t, d))
  }

  function CoverInDirection(g: Grid, a: Position, t: Position, d: Direction, rest: int): int
    requires WellFormedGrid(g)
  {
    if CoveredFrom(g, a, t, d) then HALF_COVER_DAMAGE_REDUCTION else rest
  }

  /**
   * getCoverBenefitForTarget: the four neighbours are tried west, east,
   * south, north; the first obstacle with the attacker beyond it grants
   * half cover.
   */
  function CoverBenefit(attacker: Position, target: Position, g: Grid): (r: int)
    requires WellFormedGrid(g)
    ensures r == 0 || r == HALF_COVER_DAMAGE_REDUCTION
  {
    CoverInDirection(g, attacker, target, West,
      CoverInDirection(g, attacker, target, East,
        CoverInDirection(g, attacker, target, South,
          CoverInDirection(g, attacker, target, North, 0))))
  }

  /** The target has half cover exactly when some neighbouring obstacle stands between it and the attacker. */
  lemma CoverBenefitCovered(attacker: Position, target: Position, g: Grid)
    requires WellFormedGrid(g)
    ensures CoverBenefit(attacker, target, g) == HALF_COVER_DAMAGE_REDUCTION <==> exists d :: CoveredFrom(g, attacker, target, d)
  {
    if CoverBenefit(attacker, target, g) != HALF_COVER_DAMAGE_REDUCTION {
      forall d ensures !CoveredFrom(g, attacker, target, d) {
        match d
        case West =>
        case East =>
        case South =>
        case North =>
      }
    }
  }

  /** Only the axis of the obstacle's direction matters: moving the attacker along the other axis never changes cover. */
  lemma CoverIgnoresOtherAxis(g: Grid, a: Position, t: Position, dy: int)
    requires WellFormedGrid(g)
    requires !ObstacleAt(g, Neighbour(t, South)) && !ObstacleAt(g, Neighbour(t, North))
    ensures CoverBenefit(a, t, g) == CoverBenefit(Position(a.x, a.y + dy), t, g)
  {
  }

  // ----- game over -----

  function CountAlive(units: seq<Unit>, side: Allegiance): nat
  {
    if |units| == 0 then 0
    else CountAlive(units[..|units| - 1], side)
         + (if units[|units| - 1].allegiance == side && units[|units| - 1].health > 0 then 1 else 0)
  }

  predicate AnyAlive(units: seq<Unit>, side: Allegiance)
  {
    exists u :: u in units && u.allegiance == side && u.health > 0
  }

  lemma {:induction false} CountAliveZero(units: seq<Unit>, side: Allegiance)
    ensures CountAlive(units, side) == 0 <==> !AnyAlive(units, side)
    decreases |units|
  {
    if |units| > 0 {
      var init := units[..|units| - 1];
      CountAliveZero(init, side);
      assert forall u :: u in units <==> u in init || u == units[|units| - 1];
    }
  }

  /** determineGameOverStatus. */
  function GameOverStatus(units: seq<Unit>, prev: GameOverState): GameOverState
  {
    if prev != Playing then prev
    else
      var players := CountAlive(units, Player);
      var enemies := CountAlive(units, Enemy);
      if players == 0 && enemies >= 0 then Defeat
      else if enemies == 0 && players > 0 then Victory
      else Playing
  }

  /** A finished game stays finished; otherwise it is lost when no player unit lives, and won when only player units live. */
  lemma GameOverStatusMeaning(units: seq<Unit>, prev: GameOverState)
    ensures var r := GameOverStatus(units, prev);
      && (prev != Playing ==> r == prev)
      && (prev == Playing ==> (r == Defeat <==> !AnyAlive(units, Player)))
      && (prev == Playing ==> (r == Victory <==> AnyAlive(units, Player) && !AnyAlive(units, Enemy)))
  {
    CountAliveZero(units, Player);
    CountAliveZero(units, Enemy);
  }

  // ----- highlights -----

  /** moveSpeed plus the value of the first active blitz move-speed effect, when that value is non-zero. */
  function EffectiveMoveSpeed(u: Unit): int
  {
    match FirstBlitz(u.effects)
    case Some(e) => if e.value != 0 then u.moveSpeed + e.value else u.moveSpeed
    case None => u.moveSpeed
  }

  predicate IsActiveBlitz(e: TempEffect)
  {
    e.source == "blitz" && e.active && e.stat == Some(MoveSpeed)
  }

  function FirstBlitz(effects: seq<TempEffect>): (r: Option<TempEffect>)
    ensures r.Some? ==> r.value in effects && IsActiveBlitz(r.value)
    ensures r.None? ==> forall e :: e in effects ==> !IsActiveBlitz(e)
  {
    if |effects| == 0 then None
    else if IsActiveBlitz(effects[0]) then Some(effects[0])
    else FirstBlitz(effects[1..])
  }

  predicate CanMoveTo(u: Unit, t: Tile, p: Position)
  {
    var d := Manhattan(u.pos, p);
    d > 0 && d <= EffectiveMoveSpeed(u) && t.walkable && !t.obstacle && !t.occupied
  }

  /** getMovementHighlightGrid. */
  function MoveHighlightGrid(u: Unit, g: Grid): (r: Grid)
    requires WellFormedGrid(g)
    ensures WellFormedGrid(r)
    ensures forall p :: InBounds(p) ==>
      TileAt(r, p) == TileAt(g, p).(highlight := if CanMoveTo(u, TileAt(g, p), p) then Some(MoveHighlight) else None)
  {
    seq(|g|, x requires 0 <= x < |g| => seq(|g[x]|, y requires 0 <= y < |g[x]| =>
      g[x][y].(highlight := if CanMoveTo(u, g[x][y], Position(x, y)) then Some(MoveHighlight) else None)))
  }

  /** A tile is offered for movement iff it is within reach and free; never the unit's own tile. */
  lemma MoveHighlightExact(u: Unit, g: Grid, p: Position)
    requires WellFormedGrid(g) && InBounds(p)
    ensures TileAt(MoveHighlightGrid(u, g), p).highlight == Some(MoveHighlight) <==>
      (0 < Manhattan(u.pos, p) <= EffectiveMoveSpeed(u)
       && TileAt(g, p).walkable && !TileAt(g, p).obstacle && !TileAt(g, p).occupied)
    ensures p == u.pos ==> TileAt(MoveHighlightGrid(u, g), p).highlight == None
  {
  }

  /** The range used for targeting: the ability's own range when it defines one, else the unit's. */
  function TargetRange(attacker: Unit, ability: Option<AbilityDef>): int
  {
    if ability.Some? && ability.value.range.Some? then ability.value.range.value else attacker.attackRange
  }

  predicate InAttackRange(attacker: Unit, p: Position, range: int)
  {
    0 < Manhattan(attacker.pos, p) <= range
  }

  /** A unit the attacker may fire at. */
  predicate Targetable(attacker: Unit, u: Unit, range: int)
  {
    u.id != attacker.id && u.allegiance != attacker.allegiance && u.health > 0
    && InAttackRange(attacker, u.pos, range)
  }

  function AttackHighlightKind(ability: Option<AbilityDef>): Highlight
  {
    if ability.Some? then AbilityTargetHighlight else PlayerAttackHighlight
  }

  function MarkTargets(attacker: Unit, units: seq<Unit>, range: int): (r: seq<Unit>)
    ensures |r| == |units|
    ensures forall i {:trigger r[i]} :: 0 <= i < |units| ==> r[i] == units[i].(targetable := Targetable(attacker, units[i], range))
  {
    seq(|units|, i requires 0 <= i < |units| =>
      if units[i].id == attacker.id then units[i].(targetable := false)
      else if units[i].allegiance == attacker.allegiance || units[i].health <= 0 then units[i].(targetable := false)
      else units[i].(targetable := InAttackRange(attacker, units[i].pos, range)))
  }

  function WithoutHighlights(g: Grid): (r: Grid)
    ensures |r| == |g| && forall x :: 0 <= x < |g| ==> |r[x]| == |g[x]|
    ensures forall x, y {:trigger r[x][y]} :: 0 <= x < |g| && 0 <= y < |g[x]| ==> r[x][y] == g[x][y].(highlight := None)
  {
    seq(|g|, x requires 0 <= x < |g| => seq(|g[x]|, y requires 0 <= y < |g[x]| => g[x][y].(highlight := None)))
  }

  /** Whether the tile at (x, y) of `g` gets the attack (or ability) highlight. */
  predicate InFiringArc(attacker: Unit, t: Tile, p: Position, range: int)
  {
    !t.obstacle && InAttackRange(attacker, p, range)
  }

  /**
   * The grid getAttackContextHighlights computes: every non-obstacle tile
   * within range gets the attack (or ability) highlight, every other
   * highlight is cleared.
   */
  function AttackHighlightGrid(attacker: Unit, g: Grid, ability: Option<AbilityDef>): (r: Grid)
    requires WellFormedGrid(g)
    ensures WellFormedGrid(r)
    ensures forall p :: InBounds(p) ==>
      TileAt(r, p) == TileAt(g, p).(highlight :=
        if !TileAt(g, p).obstacle && InAttackRange(attacker, p, TargetRange(attacker, ability))
        then Some(AttackHighlightKind(ability)) else None)
  {
    seq(|g|, x requires 0 <= x < |g| => seq(|g[x]|, y requires 0 <= y < |g[x]| =>
      g[x][y].(highlight := if InFiringArc(attacker, g[x][y], Position(x, y), TargetRange(attacker, ability))
                            then Some(AttackHighlightKind(ability)) else None)))
  }

  /**
   * getAttackContextHighlights, cell by cell as the source's nested loops do:
   * the grid of `AttackHighlightGrid`, and exactly the units the attacker
   * may fire at become targetable.
   */
  method AttackHighlights(attacker: Unit, units: seq<Unit>, g: Grid, ability: Option<AbilityDef>)
    returns (ng: Grid, nu: seq<Unit>)
    requires WellFormedGrid(g)
    ensures ng == AttackHighlightGrid(attacker, g, ability)
    ensures nu == MarkTargets(attacker, units, TargetRange(attacker, ability))
  {
    var base := WithoutHighlights(g);
    ng := base;
    var range := TargetRange(attacker, ability);
    var kind := AttackHighlightKind(ability);
    var r := 0;
    while r < GRID_SIZE_X
      invariant 0 <= r <= GRID_SIZE_X
      invariant WellFormedGrid(ng)
      invariant forall x, y :: 0 <= x < GRID_SIZE_X && 0 <= y < GRID_SIZE_Z ==>
        ng[x][y] == (if x < r && !base[x][y].obstacle && InAttackRange(attacker, Position(x, y), range)
                     then base[x][y].(highlight := Some(kind)) else base[x][y])
    {
      var c := 0;
      while c < GRID_SIZE_Z
        invariant 0 <= c <= GRID_SIZE_Z
        invariant WellFormedGrid(ng)
        invariant forall x, y :: 0 <= x < GRID_SIZE_X && 0 <= y < GRID_SIZE_Z ==>
          ng[x][y] == (if (x < r || (x == r && y < c)) && !base[x][y].obstacle && InAttackRange(attacker, Position(x, y), range)
                       then base[x][y].(highlight := Some(kind)) else base[x][y])
      {
        if !ng[r][c].obstacle {
          var d := Manhattan(attacker.pos, Position(r, c));
          if d > 0 && d <= range {
            ng := ng[r := ng[r][c := ng[r][c].(highlight := Some(kind))]];
          }
        }
        c := c + 1;
      }
      r := r + 1;
    }
    var spec := AttackHighlightGrid(attacker, g, ability);
    forall x | 0 <= x < GRID_SIZE_X ensures ng[x] == spec[x] {
      assert forall y :: 0 <= y < GRID_SIZE_Z ==> ng[x][y] == spec[x][y];
    }
    nu := MarkTargets(attacker, units, range);
  }

  // ----- message log and highlight reset -----

  const MESSAGE_LOG_SIZE: int := 10

  /** `[...log, message].slice(-10)`. */
  function AddMessage(log: seq<string>, m: string): (r: seq<string>)
    ensures |r| == if |log| + 1 > MESSAGE_LOG_SIZE then MESSAGE_LOG_SIZE else |log| + 1
    ensures r[|r| - 1] == m
    ensures forall k {:trigger r[k]} :: 0 <= k < |r| - 1 ==> r[k] == log[|log| + 1 - |r| + k]
  {
    Trim(log + [m])
  }

  /** `.slice(-10)`: the last ten entries. */
  function Trim(log: seq<string>): (r: seq<string>)
    ensures |r| == if |log| > MESSAGE_LOG_SIZE then MESSAGE_LOG_SIZE else |log|
    ensures forall k {:trigger r[k]} :: 0 <= k < |r| ==> r[k] == log[|log| - |r| + k]
  {
    if |log| > MESSAGE_LOG_SIZE then log[|log| - MESSAGE_LOG_SIZE..] else log
  }

  function NoneTargetable(units: seq<Unit>): (r: seq<Unit>)
    ensures |r| == |units|
    ensures forall i {:trigger r[i]} :: 0 <= i < |units| ==> r[i] == units[i].(targetable := false)
  {
    seq(|units|, i requires 0 <= i < |units| => units[i].(targetable := false))
  }

  /** clearAllHighlights. */
  function ClearAllHighlights(s: CombatState): CombatState
  {
    s.(grid := WithoutHighlights(s.grid), units := NoneTargetable(s.units))
  }

  function WithMessage(s: CombatState, m: string): CombatState
  {
    s.(log := AddMessage(s.log, m))
  }
}
