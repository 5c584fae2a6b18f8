// Battle setup: random obstacles, player deployment, enemy spawning and the
// initial combat state. `Math.random()` is an oracle `rand`; draw number `k`
// scaled to `[0, n)` is `rand(k) % n`, so every value the source can draw
// is some oracle's draw.
module Setup {
  import opened Types
  import opened Constants
  import opened Rules
  import opened UnitStats

  const MAX_RETRIES_PER_OBSTACLE: int := 10
  const PLAYER_SAFE_ZONE_MAX_Z: int := PLAYER_DEPLOYMENT_MAX_Z + 2
  const ENEMY_SAFE_ZONE_MIN_Z: int := ENEMY_DEPLOYMENT_MIN_Z - 2

  /** Obstacles are kept out of both deployment zones and the two rows beside each. */
  predicate InObstacleBand(p: Position)
  {
    PLAYER_SAFE_ZONE_MAX_Z < p.y < ENEMY_SAFE_ZONE_MIN_Z
  }

  predicate Distinct<T(==)>(s: seq<T>)
  {
    forall i, j :: 0 <= i < j < |s| ==> s[i] != s[j]
  }

  // ----- obstacles -----

  /**
   * generateRandomObstacles: NUM_RANDOM_OBSTACLES rounds of at most ten
   * draws each; a draw is kept when it lies outside the safe rows and is not
   * already an obstacle.
   */
  method GenerateObstacles(rand: nat -> nat, draw0: nat) returns (obstacles: seq<Position>, draw: nat)
    ensures |obstacles| <= NUM_RANDOM_OBSTACLES
    ensures forall i :: 0 <= i < |obstacles| ==> InBounds(obstacles[i]) && InObstacleBand(obstacles[i])
    ensures Distinct(obstacles)
    ensures draw >= draw0
  {
    obstacles := [];
    draw := draw0;
    var i := 0;
    while i < NUM_RANDOM_OBSTACLES
      invariant 0 <= i <= NUM_RANDOM_OBSTACLES
      invariant |obstacles| <= i
      invariant forall k :: 0 <= k < |obstacles| ==> InBounds(obstacles[k]) && InObstacleBand(obstacles[k])
      invariant Distinct(obstacles)
      invariant draw >= draw0
    {
      var retries := 0;
      while retries < MAX_RETRIES_PER_OBSTACLE
        invariant |obstacles| <= i
        invariant forall k :: 0 <= k < |obstacles| ==> InBounds(obstacles[k]) && InObstacleBand(obstacles[k])
        invariant Distinct(obstacles)
        invariant draw >= draw0
      {
        var x := rand(draw) % GRID_SIZE_X;
        var y := rand(draw + 1) % GRID_SIZE_Z;
        draw := draw + 2;
        var inPlayerZone := y <= PLAYER_SAFE_ZONE_MAX_Z;
        var inEnemyZone := y >= ENEMY_SAFE_ZONE_MIN_Z;
        var already := Position(x, y) in obstacles;
        if !inPlayerZone && !inEnemyZone && !already {
          obstacles := obstacles + [Position(x, y)];
          break;
        }
        retries := retries + 1;
      }
      i := i + 1;
    }
  }

  // ----- player deployment -----

  /** The retry condition of the placement loop. */
  predicate PlacementBlocked(p: Position, obstacles: seq<Position>, taken: seq<Position>)
  {
    p.x >= GRID_SIZE_X || p.x < 0 || p.y >= PLAYER_DEPLOYMENT_MAX_Z || p.y < 0
    || p in obstacles || p in taken
  }

  /** The position used when all twelve placement attempts are spent. */
  function FallbackPosition(index: nat): Position
  {
    Position(index % (GRID_SIZE_X / 2), index % PLAYER_DEPLOYMENT_MAX_Z)
  }

  /**
   * Placement of the player unit at roster position `index`. The list of
   * positions already handed out is created afresh for every unit, so it is
   * always empty and units six apart get the same start position.
   */
  method PlacePlayer(index: nat, obstacles: seq<Position>) returns (p: Position)
    ensures InBounds(p) && p.y < PLAYER_DEPLOYMENT_MAX_Z
    ensures !PlacementBlocked(PLAYER_START_POSITIONS[index % |PLAYER_START_POSITIONS|], obstacles, [])
            ==> p == PLAYER_START_POSITIONS[index % |PLAYER_START_POSITIONS|]
    ensures p == FallbackPosition(index) || !PlacementBlocked(p, obstacles, [])
  {
    var n := |PLAYER_START_POSITIONS|;
    p := PLAYER_START_POSITIONS[index % n];
    var original := p;
    var attempts := 0;
    var maxAttempts := n * 2;
    var taken: seq<Position> := [];
    while attempts < maxAttempts && PlacementBlocked(p, obstacles, taken)
      invariant 0 <= attempts <= maxAttempts
      invariant InBounds(p) && p.y < PLAYER_DEPLOYMENT_MAX_Z
      invariant attempts == 0 ==> p == original
      invariant attempts > 0 ==> PlacementBlocked(original, obstacles, taken)
    {
      var offsetIndex := attempts % n;
      p := Position((original.x + (attempts % 3 - 1) + GRID_SIZE_X) % GRID_SIZE_X,
                    (PLAYER_START_POSITIONS[offsetIndex].y + attempts / 3) % PLAYER_DEPLOYMENT_MAX_Z);
      attempts := attempts + 1;
    }
    if attempts == maxAttempts {
      p := FallbackPosition(index);
    }
  }

  /** With obstacles from the generator, every unit stands on its start slot. */
  lemma GeneratedObstaclesSpareStarts(obstacles: seq<Position>, index: nat)
    requires forall i :: 0 <= i < |obstacles| ==> InObstacleBand(obstacles[i])
    ensures !PlacementBlocked(PLAYER_START_POSITIONS[index % |PLAYER_START_POSITIONS|], obstacles, [])
  {
    var p := PLAYER_START_POSITIONS[index % |PLAYER_START_POSITIONS|];
    assert forall i :: 0 <= i < |obstacles| ==> obstacles[i] != p;
  }

  /** The combat unit for a saved unit: its resolved stats, its own id and name, at `pos`. */
  function PlayerUnit(st: EffectiveStats, u: SavedUnit, pos: Position): Unit
  {
    Unit(u.id, u.name, st.templateId, Player, pos, st.health, st.maxHealth,
         st.ap, st.maxAp, st.moveSpeed, st.attackRange, st.attackDamage,
         st.experience, st.rank, st.equipment, st.baseAbilities, st.abilities,
         st.effects, false, 0, false)
  }

  const FALLBACK_SAVED_UNIT := SavedUnit("fallback_player_1", "rookie", "비상 투입 신병", 0, RANKS[0].name, NoEquipment)

  /**
   * getPlayerUnitsForCombat: one unit per saved unit, or a single emergency
   * rookie at the first start position when the roster is empty.
   */
  method PlayerUnitsForCombat(roster: seq<SavedUnit>, completed: seq<string>, inventory: seq<InventoryItem>,
                              catalog: map<string, ResearchProject>, items: map<string, CraftableItem>,
                              obstacles: seq<Position>)
    returns (units: seq<Unit>)
    ensures |roster| == 0 ==> units == [PlayerUnit(EffectiveStatsOf(FALLBACK_SAVED_UNIT, completed, inventory, catalog, items),
                                                   FALLBACK_SAVED_UNIT, PLAYER_START_POSITIONS[0])]
    ensures |roster| > 0 ==> |units| == |roster|
    ensures forall i :: 0 <= i < |roster| ==>
      && units[i].id == roster[i].id && units[i].name == roster[i].name
      && units[i] == PlayerUnit(EffectiveStatsOf(roster[i], completed, inventory, catalog, items), roster[i], units[i].pos)
    ensures forall i :: 0 <= i < |units| ==> InBounds(units[i].pos) && units[i].pos.y < PLAYER_DEPLOYMENT_MAX_Z
    ensures (forall i :: 0 <= i < |obstacles| ==> InObstacleBand(obstacles[i])) ==>
      forall i :: 0 <= i < |roster| ==> units[i].pos == PLAYER_START_POSITIONS[i % |PLAYER_START_POSITIONS|]
  {
    if |roster| == 0 {
      var st := CalculateEffectiveUnitStats(FALLBACK_SAVED_UNIT, completed, inventory, catalog, items);
      return [PlayerUnit(st, FALLBACK_SAVED_UNIT, PLAYER_START_POSITIONS[0])];
    }
    units := [];
    var i := 0;
    while i < |roster|
      invariant 0 <= i <= |roster| && |units| == i
      invariant forall k :: 0 <= k < i ==>
        units[k] == PlayerUnit(EffectiveStatsOf(roster[k], completed, inventory, catalog, items), roster[k], units[k].pos)
      invariant forall k :: 0 <= k < i ==> InBounds(units[k].pos) && units[k].pos.y < PLAYER_DEPLOYMENT_MAX_Z
      invariant (forall k :: 0 <= k < |obstacles| ==> InObstacleBand(obstacles[k])) ==>
        forall k :: 0 <= k < i ==> units[k].pos == PLAYER_START_POSITIONS[k % |PLAYER_START_POSITIONS|]
    {
      var u := DeployPlayer(roster[i], i, completed, inventory, catalog, items, obstacles);
      units := units + [u];
      i := i + 1;
    }
  }

  /** One saved unit's combat unit, placed for roster position `index`. */
  method DeployPlayer(saved: SavedUnit, index: nat, completed: seq<string>, inventory: seq<InventoryItem>,
                      catalog: map<string, ResearchProject>, items: map<string, CraftableItem>,
                      obstacles: seq<Position>)
    returns (u: Unit)
    ensures u == PlayerUnit(EffectiveStatsOf(saved, completed, inventory, catalog, items), saved, u.pos)
    ensures InBounds(u.pos) && u.pos.y < PLAYER_DEPLOYMENT_MAX_Z
    ensures (forall k :: 0 <= k < |obstacles| ==> InObstacleBand(obstacles[k])) ==>
      u.pos == PLAYER_START_POSITIONS[index % |PLAYER_START_POSITIONS|]
  {
    var st := CalculateEffectiveUnitStats(saved, completed, inventory, catalog, items);
    var pos := PlacePlayer(index, obstacles);
    if forall k :: 0 <= k < |obstacles| ==> InObstacleBand(obstacles[k]) {
      GeneratedObstaclesSpareStarts(obstacles, index);
    }
    u := PlayerUnit(st, saved, pos);
  }

  // ----- enemy spawning -----

  /** Row-major order of the spawn scan: by x, then by y. */
  predicate ScanBefore(a: Position, b: Position)
  {
    a.x < b.x || (a.x == b.x && a.y < b.y)
  }

  predicate SpawnTile(p: Position, obstacles: seq<Position>)
  {
    InBounds(p) && p.y >= ENEMY_DEPLOYMENT_MIN_Z && p !in obstacles
  }

  /** validEnemySpawnTiles: every non-obstacle tile of the enemy deployment rows, each once. */
  method ValidSpawnTiles(obstacles: seq<Position>) returns (tiles: seq<Position>)
    ensures forall p :: p in tiles <==> SpawnTile(p, obstacles)
    ensures forall i, j :: 0 <= i < j < |tiles| ==> ScanBefore(tiles[i], tiles[j])
    ensures Distinct(tiles)
  {
    tiles := [];
    var x := 0;
    while x < GRID_SIZE_X
      invariant 0 <= x <= GRID_SIZE_X
      invariant forall p :: p in tiles <==> SpawnTile(p, obstacles) && p.x < x
      invariant forall i, j :: 0 <= i < j < |tiles| ==> ScanBefore(tiles[i], tiles[j])
    {
      var y := ENEMY_DEPLOYMENT_MIN_Z;
      while y < GRID_SIZE_Z
        invariant ENEMY_DEPLOYMENT_MIN_Z <= y <= GRID_SIZE_Z
        invariant forall p :: p in tiles <==> SpawnTile(p, obstacles) && (p.x < x || (p.x == x && p.y < y))
        invariant forall i, j :: 0 <= i < j < |tiles| ==> ScanBefore(tiles[i], tiles[j])
      {
        if Position(x, y) !in obstacles {
          assert forall i :: 0 <= i < |tiles| ==> tiles[i] in tiles;
          tiles := tiles + [Position(x, y)];
        }
        y := y + 1;
      }
      x := x + 1;
    }
    forall i, j | 0 <= i < j < |tiles| ensures tiles[i] != tiles[j] {
      assert ScanBefore(tiles[i], tiles[j]);
    }
  }

  /** The Fisher-Yates shuffle of the spawn list, in place. */
  method Shuffle(a: array<Position>, rand: nat -> nat, draw0: nat) returns (draw: nat)
    modifies a
    ensures multiset(a[..]) == multiset(old(a[..]))
    ensures draw >= draw0
  {
    draw := draw0;
    var i := a.Length - 1;
    while i > 0
      invariant -1 <= i < a.Length || (a.Length == 0 && i == -1)
      invariant multiset(a[..]) == multiset(old(a[..]))
      invariant draw >= draw0
    {
      var j := rand(draw) % (i + 1);
      draw := draw + 1;
      a[i], a[j] := a[j], a[i];
      i := i - 1;
    }
  }

  lemma {:induction false} DistinctCounts<T>(s: seq<T>)
    requires Distinct(s)
    ensures forall x :: multiset(s)[x] <= 1
    decreases |s|
  {
    if |s| > 0 {
      var init := s[..|s| - 1];
      assert s == init + [s[|s| - 1]];
      DistinctCounts(init);
      assert forall k :: 0 <= k < |init| ==> init[k] != s[|s| - 1];
      assert s[|s| - 1] !in multiset(init);
    }
  }

  lemma CountsDistinct<T>(s: seq<T>)
    requires forall x :: multiset(s)[x] <= 1
    ensures Distinct(s)
  {
    forall i, j | 0 <= i < j < |s| ensures s[i] != s[j] {
      assert s == s[..i] + [s[i]] + s[i + 1..j] + [s[j]] + s[j + 1..];
      assert multiset(s)[s[i]] >= 1 + multiset([s[j]])[s[i]];
    }
  }

  /** A permutation of a list without repeats has none either. */
  lemma PermutationKeepsDistinct<T>(s: seq<T>, t: seq<T>)
    requires Distinct(s) && multiset(s) == multiset(t)
    ensures Distinct(t)
  {
    DistinctCounts(s);
    CountsDistinct(t);
  }

  /** Decimal digits of `n`, as template strings print them. */
  function NatToString(n: nat): (r: string)
    ensures |r| >= 1
    ensures forall i :: 0 <= i < |r| ==> '0' <= r[i] <= '9'
    ensures n >= 10 ==> |r| >= 2
    decreases n
  {
    if n < 10 then [DigitChar(n)] else NatToString(n / 10) + [DigitChar(n % 10)]
  }

  function DigitChar(d: nat): (c: char)
    requires d < 10
    ensures '0' <= c <= '9'
  {
    ['0', '1', '2', '3', '4', '5', '6', '7', '8', '9'][d]
  }

  lemma {:induction false} NatToStringInjective(n: nat, m: nat)
    ensures NatToString(n) == NatToString(m) ==> n == m
    decreases n
  {
    var s := NatToString(n);
    if n >= 10 && m >= 10 && s == NatToString(m) {
      assert NatToString(n / 10) == s[..|s| - 1] == NatToString(m / 10);
      NatToStringInjective(n / 10, m / 10);
      assert DigitChar(n % 10) == DigitChar(m % 10);
    }
  }

  /** `enemy_${templateId}_${counter}`. */
  function EnemyId(templateId: string, n: nat): string
  {
    "enemy_" + templateId + "_" + NatToString(n)
  }

  /** The characters after the last '_' (the whole string when there is none). */
  function AfterLastUnderscore(s: string): string
    decreases |s|
  {
    if |s| == 0 || s[|s| - 1] == '_' then [] else AfterLastUnderscore(s[..|s| - 1]) + [s[|s| - 1]]
  }

  lemma {:induction false} SuffixAfterUnderscore(p: string, d: string)
    requires forall i :: 0 <= i < |d| ==> d[i] != '_'
    ensures AfterLastUnderscore(p + "_" + d) == d
    decreases |d|
  {
    if |d| > 0 {
      var init := d[..|d| - 1];
      assert (p + "_" + d)[..|p + "_" + d| - 1] == p + "_" + init;
      SuffixAfterUnderscore(p, init);
      assert d == init + [d[|d| - 1]];
    } else {
      assert p + "_" + d == p + "_";
    }
  }

  /** The counter can be read back from an enemy id, so ids with different counters differ. */
  lemma EnemyIdsDistinct(t1: string, n1: nat, t2: string, n2: nat)
    ensures EnemyId(t1, n1) == EnemyId(t2, n2) ==> n1 == n2
  {
    SuffixAfterUnderscore("enemy_" + t1, NatToString(n1));
    SuffixAfterUnderscore("enemy_" + t2, NatToString(n2));
    NatToStringInjective(n1, n2);
  }

  lemma EnemyIdPrefix(t: string, n: nat)
    ensures |EnemyId(t, n)| >= 6 && EnemyId(t, n)[..6] == "enemy_"
  {
  }

  /** An enemy straight from its template: full health and AP, no abilities, no equipment. */
  function MakeEnemy(templateId: string, n: nat, pos: Position): Unit
    requires templateId in UNIT_TEMPLATES
  {
    var t := UNIT_TEMPLATES[templateId];
    Unit(EnemyId(templateId, n), t.name + " #" + NatToString(n), t.templateId, Enemy, pos,
         t.maxHealth, t.maxHealth, t.maxAp, t.maxAp, t.moveSpeed, t.attackRange, t.attackDamage,
         0, "N/A", NoEquipment, [], [], [], false, 0, false)
  }

  function Repeat(t: string, count: int): (r: seq<string>)
    ensures |r| == if count > 0 then count else 0
    ensures forall i :: 0 <= i < |r| ==> r[i] == t
    decreases count
  {
    if count <= 0 then [] else Repeat(t, count - 1) + [t]
  }

  /** The template ids the composition asks for, in order; unknown templates are skipped. */
  function Requested(comp: seq<(string, int)>): (r: seq<string>)
    ensures forall i :: 0 <= i < |r| ==> r[i] in UNIT_TEMPLATES
  {
    if |comp| == 0 then []
    else
      var last := comp[|comp| - 1];
      Requested(comp[..|comp| - 1]) + (if last.0 in UNIT_TEMPLATES then Repeat(last.0, last.1) else [])
  }

  function Min(a: int, b: int): int
  {
    if a <= b then a else b
  }

  /** `ENEMY_COMPOSITIONS_BY_DIFFICULTY[d] || ENEMY_COMPOSITIONS_BY_DIFFICULTY[1]`. */
  function CompositionFor(difficulty: int): seq<(string, int)>
  {
    if difficulty in ENEMY_COMPOSITIONS_BY_DIFFICULTY then ENEMY_COMPOSITIONS_BY_DIFFICULTY[difficulty]
    else ENEMY_COMPOSITIONS_BY_DIFFICULTY[1]
  }

  /**
   * The spawning loops: the i-th spawned enemy (counting from 0) is the i-th
   * requested template, numbered i + 1, on the i-th tile popped from the end
   * of the list; spawning stops when the tiles run out.
   */
  method SpawnEnemies(comp: seq<(string, int)>, tiles: seq<Position>) returns (enemies: seq<Unit>)
    ensures |enemies| == Min(|tiles|, |Requested(comp)|)
    ensures forall i :: 0 <= i < |enemies| ==>
      enemies[i] == MakeEnemy(Requested(comp)[i], i + 1, tiles[|tiles| - 1 - i])
  {
    var remaining := tiles;
    var counter := 0;
    enemies := [];
    var c := 0;
    while c < |comp|
      invariant 0 <= c <= |comp|
      invariant |enemies| == counter == Min(|tiles|, |Requested(comp[..c])|)
      invariant remaining == tiles[..|tiles| - counter]
      invariant forall i :: 0 <= i < |enemies| ==>
        enemies[i] == MakeEnemy(Requested(comp[..c])[i], i + 1, tiles[|tiles| - 1 - i])
    {
      var R := Requested(comp[..c]);
      assert comp[..c + 1][..c] == comp[..c];
      var (templateId, count) := comp[c];
      if templateId in UNIT_TEMPLATES {
        var R' := R + Repeat(templateId, count);
        assert Requested(comp[..c + 1]) == R';
        var k := 0;
        while k < count
          invariant 0 <= k <= (if count > 0 then count else 0)
          invariant |enemies| == counter == Min(|tiles|, |R| + k)
          invariant remaining == tiles[..|tiles| - counter]
          invariant forall i :: 0 <= i < |enemies| ==>
            enemies[i] == MakeEnemy(R'[i], i + 1, tiles[|tiles| - 1 - i])
        {
          if |remaining| == 0 {
            break;
          }
          var spawn := remaining[|remaining| - 1];
          remaining := remaining[..|remaining| - 1];
          counter := counter + 1;
          enemies := enemies + [MakeEnemy(templateId, counter, spawn)];
          k := k + 1;
        }
      } else {
        assert Requested(comp[..c + 1]) == R;
      }
      c := c + 1;
    }
    assert comp[..|comp|] == comp;
  }

  // ----- initial state -----

  const BATTLE_START_MESSAGE := "전투 시작! (턴 1)"

  predicate NotEnemyId(id: string)
  {
    !(|id| >= 6 && id[..6] == "enemy_")
  }

  /**
   * The enemy half of the setup: scan the spawn tiles, shuffle them in
   * place, and spawn the composition from the end of the shuffled list.
   */
  method SpawnForMission(obstacles: seq<Position>, comp: seq<(string, int)>, rand: nat -> nat, draw0: nat)
    returns (enemies: seq<Unit>, draw: nat)
    ensures |enemies| == Min(|SpawnTilesOf(obstacles)|, |Requested(comp)|)
    ensures forall i :: 0 <= i < |enemies| ==>
      SpawnTile(enemies[i].pos, obstacles) && enemies[i] == MakeEnemy(Requested(comp)[i], i + 1, enemies[i].pos)
    ensures forall i, j :: 0 <= i < j < |enemies| ==> enemies[i].pos != enemies[j].pos && enemies[i].id != enemies[j].id
    ensures draw >= draw0
  {
    var tiles := ValidSpawnTiles(obstacles);
    SpawnTilesUnique(obstacles, tiles);
    var a := new Position[|tiles|](i requires 0 <= i < |tiles| => tiles[i]);
    assert a[..] == tiles;
    draw := Shuffle(a, rand, draw0);
    var shuffled := a[..];
    PermutationKeepsDistinct(tiles, shuffled);
    enemies := SpawnEnemies(comp, shuffled);
    SpawnedOnTiles(obstacles, comp, tiles, shuffled, enemies);
    SpawnedApart(comp, shuffled, enemies);
  }

  lemma SpawnedOnTiles(obstacles: seq<Position>, comp: seq<(string, int)>, tiles: seq<Position>,
                       shuffled: seq<Position>, enemies: seq<Unit>)
    requires forall p :: p in tiles <==> SpawnTile(p, obstacles)
    requires multiset(shuffled) == multiset(tiles)
    requires |enemies| <= |shuffled| && |enemies| <= |Requested(comp)|
    requires forall i :: 0 <= i < |enemies| ==>
      enemies[i] == MakeEnemy(Requested(comp)[i], i + 1, shuffled[|shuffled| - 1 - i])
    ensures forall i :: 0 <= i < |enemies| ==>
      SpawnTile(enemies[i].pos, obstacles) && enemies[i] == MakeEnemy(Requested(comp)[i], i + 1, enemies[i].pos)
  {
    forall i | 0 <= i < |enemies|
      ensures SpawnTile(enemies[i].pos, obstacles) && enemies[i] == MakeEnemy(Requested(comp)[i], i + 1, enemies[i].pos)
    {
      var p := shuffled[|shuffled| - 1 - i];
      assert p in multiset(shuffled);
      assert p in tiles;
    }
  }

  lemma SpawnedApart(comp: seq<(string, int)>, shuffled: seq<Position>, enemies: seq<Unit>)
    requires Distinct(shuffled)
    requires |enemies| <= |shuffled| && |enemies| <= |Requested(comp)|
    requires forall i :: 0 <= i < |enemies| ==>
      enemies[i] == MakeEnemy(Requested(comp)[i], i + 1, shuffled[|shuffled| - 1 - i])
    ensures forall i, j :: 0 <= i < j < |enemies| ==> enemies[i].pos != enemies[j].pos && enemies[i].id != enemies[j].id
  {
    forall i, j | 0 <= i < j < |enemies|
      ensures enemies[i].pos != enemies[j].pos && enemies[i].id != enemies[j].id
    {
      EnemyIdsDistinct(Requested(comp)[i], i + 1, Requested(comp)[j], j + 1);
    }
  }

  predicate RosterIdsUsable(roster: seq<SavedUnit>)
  {
    Distinct(RosterIds(roster)) && forall i :: 0 <= i < |roster| ==> NotEnemyId(roster[i].id)
  }

  /** Player ids are the roster's (or the emergency rookie's), enemy ids carry the enemy prefix. */
  lemma SetupIdsUnique(roster: seq<SavedUnit>, players: seq<Unit>, enemies: seq<Unit>)
    requires RosterIdsUsable(roster)
    requires |roster| == 0 ==> |players| == 1 && players[0].id == FALLBACK_SAVED_UNIT.id
    requires |roster| > 0 ==> |players| == |roster| && forall i :: 0 <= i < |roster| ==> players[i].id == roster[i].id
    requires forall i :: 0 <= i < |enemies| ==> |enemies[i].id| >= 6 && enemies[i].id[..6] == "enemy_"
    requires forall i, j :: 0 <= i < j < |enemies| ==> enemies[i].id != enemies[j].id
    ensures UniqueIds(players + enemies)
  {
    var units := players + enemies;
    forall i, j | 0 <= i < j < |units| ensures units[i].id != units[j].id {
      if j < |players| {
        assert units[i] == players[i] && units[j] == players[j];
        if |roster| > 0 {
          assert RosterIds(roster)[i] == roster[i].id;
          assert RosterIds(roster)[j] == roster[j].id;
        }
      } else if i < |players| {
        assert units[i] == players[i];
        assert units[j] == enemies[j - |players|];
        assert units[j].id[..6] == "enemy_";
        if |roster| > 0 {
          assert NotEnemyId(roster[i].id);
        } else {
          assert units[i].id == FALLBACK_SAVED_UNIT.id;
          assert FALLBACK_SAVED_UNIT.id[..6][0] == 'f';
        }
      } else {
        assert units[i] == enemies[i - |players|];
      }
    }
  }

  /**
   * createInitialCombatStateForMission: players first, then enemies; the
   * grid marks obstacles and the tiles of live units; player turn 1.
   */
  method CreateInitialCombatState(roster: seq<SavedUnit>, completed: seq<string>, inventory: seq<InventoryItem>,
                                  catalog: map<string, ResearchProject>, items: map<string, CraftableItem>,
                                  difficulty: int, rand: nat -> nat)
    returns (s: CombatState, obstacles: seq<Position>, players: seq<Unit>, enemies: seq<Unit>)
    ensures s.units == players + enemies
    ensures s.grid == BuildGrid(s.units, obstacles)
    ensures s.selected == None && s.currentTurn == Player && s.log == [BATTLE_START_MESSAGE]
    ensures s.pending == None && s.gameOver == Playing && s.damageLog == []
    ensures s.turnNumber == 1 && !s.delegated
    ensures Distinct(obstacles) && |obstacles| <= NUM_RANDOM_OBSTACLES
    ensures forall i :: 0 <= i < |obstacles| ==> InBounds(obstacles[i]) && InObstacleBand(obstacles[i])
    ensures |roster| > 0 ==> |players| == |roster|
    ensures forall i :: 0 <= i < |roster| ==>
      players[i].id == roster[i].id && players[i].pos == PLAYER_START_POSITIONS[i % |PLAYER_START_POSITIONS|]
    ensures forall i :: 0 <= i < |players| ==> players[i].allegiance == Player && InBounds(players[i].pos)
    ensures |enemies| == Min(|SpawnTilesOf(obstacles)|, |Requested(CompositionFor(difficulty))|)
    ensures forall i :: 0 <= i < |enemies| ==>
      SpawnTile(enemies[i].pos, obstacles) && enemies[i] == MakeEnemy(Requested(CompositionFor(difficulty))[i], i + 1, enemies[i].pos)
    ensures forall i, j :: 0 <= i < j < |enemies| ==> enemies[i].pos != enemies[j].pos
    ensures RosterIdsUsable(roster) ==> UniqueIds(s.units)
  {
    var draw;
    obstacles, draw := GenerateObstacles(rand, 0);
    players := PlayerUnitsForCombat(roster, completed, inventory, catalog, items, obstacles);
    enemies, draw := SpawnForMission(obstacles, CompositionFor(difficulty), rand, draw);
    var units := players + enemies;
    s := CombatState(units, BuildGrid(units, obstacles), None, Player, [BATTLE_START_MESSAGE],
                     None, Playing, [], 1, false);
    if RosterIdsUsable(roster) {
      EnemiesPrefixed(Requested(CompositionFor(difficulty)), enemies);
      SetupIdsUnique(roster, players, enemies);
    }
  }

  lemma EnemiesPrefixed(requested: seq<string>, enemies: seq<Unit>)
    requires |enemies| <= |requested| && forall i :: 0 <= i < |requested| ==> requested[i] in UNIT_TEMPLATES
    requires forall i :: 0 <= i < |enemies| ==> enemies[i] == MakeEnemy(requested[i], i + 1, enemies[i].pos)
    ensures forall i :: 0 <= i < |enemies| ==> |enemies[i].id| >= 6 && enemies[i].id[..6] == "enemy_"
  {
    forall i | 0 <= i < |enemies| ensures |enemies[i].id| >= 6 && enemies[i].id[..6] == "enemy_" {
      EnemyIdPrefix(requested[i], i + 1);
    }
  }

  function RosterIds(roster: seq<SavedUnit>): (r: seq<string>)
    ensures |r| == |roster| && forall i :: 0 <= i < |roster| ==> r[i] == roster[i].id
  {
    seq(|roster|, i requires 0 <= i < |roster| => roster[i].id)
  }

  /** The spawn tiles in scan order, as a function of the obstacles. */
  function SpawnTilesOf(obstacles: seq<Position>): (r: seq<Position>)
    ensures forall p :: p in r <==> SpawnTile(p, obstacles)
    ensures forall i, j :: 0 <= i < j < |r| ==> ScanBefore(r[i], r[j])
  {
    SpawnScan(obstacles, GRID_SIZE_X * GRID_SIZE_Z)
  }

  /** The first `n` cells of the scan that are spawn tiles. */
  function SpawnScan(obstacles: seq<Position>, n: nat): (r: seq<Position>)
    requires n <= GRID_SIZE_X * GRID_SIZE_Z
    ensures forall p :: p in r <==> SpawnTile(p, obstacles) && p.x * GRID_SIZE_Z + p.y < n
    ensures forall i, j :: 0 <= i < j < |r| ==> ScanBefore(r[i], r[j])
    ensures forall i :: 0 <= i < |r| ==> r[i].x * GRID_SIZE_Z + r[i].y < n
  {
    if n == 0 then []
    else
      var p := Position((n - 1) / GRID_SIZE_Z, (n - 1) % GRID_SIZE_Z);
      var rest := SpawnScan(obstacles, n - 1);
      assert forall q :: InBounds(q) ==> (q.x * GRID_SIZE_Z + q.y == n - 1 <==> q == p);
      if SpawnTile(p, obstacles) then rest + [p] else rest
  }

  predicate ScanLe(a: Position, b: Position)
  {
    a == b || ScanBefore(a, b)
  }

  /** In a strictly increasing scan list every member is at most the last one. */
  lemma AtMostLast(s: seq<Position>, p: Position)
    requires forall i, j :: 0 <= i < j < |s| ==> ScanBefore(s[i], s[j])
    requires p in s
    ensures ScanLe(p, s[|s| - 1])
  {
    var i :| 0 <= i < |s| && s[i] == p;
    if i < |s| - 1 {
      assert ScanBefore(s[i], s[|s| - 1]);
    }
  }

  /** With equal last elements, whatever precedes the last of `s` precedes the last of `t`. */
  lemma InitMember(s: seq<Position>, t: seq<Position>, p: Position)
    requires |s| > 0 && |t| > 0 && s[|s| - 1] == t[|t| - 1]
    requires forall q :: q in s ==> q in t
    requires forall i, j :: 0 <= i < j < |s| ==> ScanBefore(s[i], s[j])
    requires p in s[..|s| - 1]
    ensures p in t[..|t| - 1]
  {
    var i :| 0 <= i < |s| - 1 && s[i] == p;
    assert ScanBefore(s[i], s[|s| - 1]);
    assert s[i] in s;
    var k :| 0 <= k < |t| && t[k] == p;
    assert k < |t| - 1;
    assert t[..|t| - 1][k] == p;
  }

  /** Two lists that hold the same tiles in strictly increasing scan order are equal. */
  lemma {:induction false} ScanOrderUnique(s: seq<Position>, t: seq<Position>)
    requires forall p :: p in s <==> p in t
    requires forall i, j :: 0 <= i < j < |s| ==> ScanBefore(s[i], s[j])
    requires forall i, j :: 0 <= i < j < |t| ==> ScanBefore(t[i], t[j])
    ensures s == t
    decreases |s| + |t|
  {
    if |s| > 0 {
      assert s[0] in t;
    }
    if |t| > 0 {
      assert t[0] in s;
    }
    if |s| > 0 && |t| > 0 {
      var a, b := s[|s| - 1], t[|t| - 1];
      assert a in s && b in t;
      AtMostLast(t, a);
      AtMostLast(s, b);
      var s', t' := s[..|s| - 1], t[..|t| - 1];
      forall p | p in s' ensures p in t' {
        InitMember(s, t, p);
      }
      forall p | p in t' ensures p in s' {
        InitMember(t, s, p);
      }
      ScanOrderUnique(s', t');
      assert s == s' + [a] && t == t' + [b];
    }
  }

  /** The scanning method returns exactly the scan-order spawn list. */
  lemma SpawnTilesUnique(obstacles: seq<Position>, tiles: seq<Position>)
    requires forall p :: p in tiles <==> SpawnTile(p, obstacles)
    requires forall i, j :: 0 <= i < j < |tiles| ==> ScanBefore(tiles[i], tiles[j])
    ensures tiles == SpawnTilesOf(obstacles)
  {
    ScanOrderUnique(tiles, SpawnTilesOf(obstacles));
  }
}
