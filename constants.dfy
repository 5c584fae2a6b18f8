// The game tables the rules read (constants.ts): grid size, deployment rows,
// cover, abilities, unit templates, ranks, XP rewards, enemy compositions.
module Constants {
  import opened Types

  const GRID_SIZE_X: int := 32
  const GRID_SIZE_Z: int := 24
  const PLAYER_DEPLOYMENT_MAX_Z: int := 4
  const ENEMY_DEPLOYMENT_MIN_Z: int := GRID_SIZE_Z - 5

  /** floor(32 * 24 * (0.1 * 2 / 3)) = floor(51.2). */
  const NUM_RANDOM_OBSTACLES: int := 51

  const HALF_COVER_DAMAGE_REDUCTION: int := 10

  const PLAYER_START_POSITIONS: seq<Position> := [
    Position(GRID_SIZE_X / 2 - 3, 1),
    Position(GRID_SIZE_X / 2 - 1, 0),
    Position(GRID_SIZE_X / 2 + 1, 1),
    Position(GRID_SIZE_X / 2 - 2, 2),
    Position(GRID_SIZE_X / 2, 2),
    Position(GRID_SIZE_X / 2 + 2, 2)
  ]

  const STEADY_AIM := AbilityDef("steady_aim", 1, 2, SelfTarget, None,
    [AbilityEffect(DamageModifier, 10, 0, None, 0, true)], false)
  const DEADEYE_SHOT := AbilityDef("deadeye_shot", 2, 3, EnemyUnit, None,
    [AbilityEffect(DamageModifier, 0, 50, None, 0, false)], true)
  const BLITZ := AbilityDef("blitz", 1, 3, SelfTarget, None,
    [AbilityEffect(TemporaryStatBoost, 2, 0, Some(MoveSpeed), 1, false)], false)
  const SUPPRESSIVE_FIRE := AbilityDef("suppressive_fire", 2, 3, EnemyUnit, None, [], false)

  const ALL_ABILITIES: map<string, AbilityDef> := map[
    "steady_aim" := STEADY_AIM,
    "deadeye_shot" := DEADEYE_SHOT,
    "blitz" := BLITZ,
    "suppressive_fire" := SUPPRESSIVE_FIRE
  ]

  const ROOKIE := UnitTemplate("rookie", "신병", 80, 2, 5, 4, 25, ["steady_aim"])

  const UNIT_TEMPLATES: map<string, UnitTemplate> := map[
    "rookie" := ROOKIE,
    "sniper" := UnitTemplate("sniper", "저격수", 60, 2, 2, 10, 40, ["deadeye_shot"]),
    "assault" := UnitTemplate("assault", "돌격병", 130, 2, 6, 2, 30, ["blitz"]),
    "heavy" := UnitTemplate("heavy", "중화기병", 170, 2, 3, 5, 55, ["suppressive_fire"]),
    "enemy_grunt" := UnitTemplate("enemy_grunt", "외계인 그런트", 80, 2, 3, 4, 25, []),
    "enemy_drone" := UnitTemplate("enemy_drone", "외계인 드론", 60, 2, 5, 5, 20, []),
    "enemy_bruiser" := UnitTemplate("enemy_bruiser", "외계인 브루저", 150, 2, 3, 1, 40, [])
  ]

  const RANKS: seq<RankData> := [
    RankData("신병", Some(100), []),
    RankData("일병", Some(150), [StatBonus(MaxHealth, 5), StatBonus(AttackDamage, 2)]),
    RankData("상병", Some(200), [StatBonus(MaxHealth, 10), StatBonus(AttackDamage, 3), StatBonus(MoveSpeed, 1)]),
    RankData("병장", Some(300), [StatBonus(MaxHealth, 15), StatBonus(AttackDamage, 5), StatBonus(AttackRange, 1)]),
    RankData("하사", Some(400), [StatBonus(MaxHealth, 20), StatBonus(AttackDamage, 7), StatBonus(MaxActionPoints, 1)]),
    RankData("중사", Some(500), [StatBonus(MaxHealth, 25), StatBonus(AttackDamage, 8), StatBonus(MoveSpeed, 1), StatBonus(AttackRange, 1)]),
    RankData("상사", None, [StatBonus(MaxHealth, 30), StatBonus(AttackDamage, 10), StatBonus(MaxActionPoints, 1), StatBonus(MoveSpeed, 1)])
  ]

  const XP_PER_MISSION_VICTORY: int := 75
  const XP_PER_KILL: int := 25

  /** Cost in supplies of recruiting one unit. */
  const RECRUIT_COST: int := 25

  /** Enemy squads per mission difficulty: (template id, count). */
  const ENEMY_COMPOSITIONS_BY_DIFFICULTY: map<int, seq<(string, int)>> := map[
    1 := [("enemy_grunt", 2), ("enemy_drone", 1)],
    2 := [("enemy_grunt", 3), ("enemy_drone", 1)],
    3 := [("enemy_grunt", 3), ("enemy_drone", 2), ("enemy_bruiser", 1)],
    4 := [("enemy_grunt", 4), ("enemy_drone", 3), ("enemy_bruiser", 1)],
    5 := [("enemy_grunt", 4), ("enemy_drone", 3), ("enemy_bruiser", 2)]
  ]

  /** Index of the rank with the given name (`findIndex`). */
  function RankIndex(name: string): (r: Option<nat>)
    ensures r.Some? ==> r.value < |RANKS| && RANKS[r.value].name == name
    ensures r.None? ==> forall i :: 0 <= i < |RANKS| ==> RANKS[i].name != name
  {
    RankIndexFrom(name, 0)
  }

  function RankIndexFrom(name: string, i: nat): (r: Option<nat>)
    requires i <= |RANKS|
    ensures r.Some? ==> i <= r.value < |RANKS| && RANKS[r.value].name == name
    ensures r.None? ==> forall j :: i <= j < |RANKS| ==> RANKS[j].name != name
    decreases |RANKS| - i
  {
    if i == |RANKS| then None
    else if RANKS[i].name == name then Some(i)
    else RankIndexFrom(name, i + 1)
  }

  lemma RankNamesDistinct()
    ensures forall i, j :: 0 <= i < j < |RANKS| ==> RANKS[i].name != RANKS[j].name
  {
  }

  lemma RankIndexOfName(k: nat)
    requires k < |RANKS|
    ensures RankIndex(RANKS[k].name) == Some(k)
  {
    RankNamesDistinct();
  }

  /** Only the last rank has no XP threshold. */
  lemma OnlyLastRankCapped()
    ensures forall i :: 0 <= i < |RANKS| ==> (RANKS[i].xpToNext.None? <==> i == |RANKS| - 1)
    ensures forall i :: 0 <= i < |RANKS| && RANKS[i].xpToNext.Some? ==> RANKS[i].xpToNext.value > 0
  {
  }
}
