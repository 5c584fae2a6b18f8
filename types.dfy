// Shapes of the game's records (the types file of the repository), transcribed
// as Dafny datatypes. Rendering-only fields (colour, size, mesh) are dropped.
module Types {

  datatype Option<T> = None | Some(value: T)

  datatype Allegiance = Player | Enemy | Neutral

  /** Grid coordinates: `x` is the column (0..GRID_SIZE_X), `y` the row (0..GRID_SIZE_Z). */
  datatype Position = Position(x: int, y: int)

  datatype Highlight = MoveHighlight | PlayerAttackHighlight | EnemyAttackHighlight | AbilityTargetHighlight

  /** A grid tile; its position is the index at which it is stored in the grid. */
  datatype Tile = Tile(occupied: bool, walkable: bool, obstacle: bool, highlight: Option<Highlight>)

  /** `grid[x][y]`, column-major as in the source. */
  type Grid = seq<seq<Tile>>

  /** The five stats the bonus system can raise (keys of UnitStatBonuses). */
  datatype Stat = MaxHealth | AttackDamage | MoveSpeed | AttackRange | MaxActionPoints

  datatype EffectKind = DamageModifier | Heal | TemporaryStatBoost

  datatype TargetType = SelfTarget | EnemyUnit | AllyUnit | AnyUnit | GroundTile

  /**
   * One effect of an ability definition. Optional numbers of the source are
   * plain integers where 0 behaves exactly like "absent" (the source only
   * tests them for truthiness); `percent` is the percentage value in percent
   * points (0.5 is 50).
   */
  datatype AbilityEffect = AbilityEffect(
    kind: EffectKind, value: int, percent: int, stat: Option<Stat>,
    duration: int, nextAttackOnly: bool)

  datatype AbilityDef = AbilityDef(
    id: string, apCost: int, cooldownTurns: int, target: TargetType,
    range: Option<int>, effects: seq<AbilityEffect>, requiresNoPriorMove: bool)

  /** A temporary effect on a unit; `duration` 0 stands for an undefined duration. */
  datatype TempEffect = TempEffect(
    kind: EffectKind, value: int, stat: Option<Stat>, source: string,
    active: bool, applied: bool, duration: int, nextAttackOnly: bool)

  datatype AbilityStatus = AbilityStatus(abilityId: string, cooldown: int)

  datatype Slot = PrimaryWeapon | WeaponMod | ArmorMod | UtilitySlot

  /** Equipment slots, each holding an inventory instance id or nothing. */
  datatype Equipment = Equipment(
    primaryWeapon: Option<string>, weaponMod: Option<string>,
    armorMod: Option<string>, utility: Option<string>)

  const NoEquipment := Equipment(None, None, None, None)

  /** The slots in the order the source's equipment object lists its keys. */
  const AllSlots: seq<Slot> := [PrimaryWeapon, WeaponMod, ArmorMod, UtilitySlot]

  function SlotGet(e: Equipment, s: Slot): Option<string>
  {
    match s
    case PrimaryWeapon => e.primaryWeapon
    case WeaponMod => e.weaponMod
    case ArmorMod => e.armorMod
    case UtilitySlot => e.utility
  }

  function SlotSet(e: Equipment, s: Slot, v: Option<string>): (r: Equipment)
    ensures SlotGet(r, s) == v
    ensures forall t :: t != s ==> SlotGet(r, t) == SlotGet(e, t)
  {
    match s
    case PrimaryWeapon => e.(primaryWeapon := v)
    case WeaponMod => e.(weaponMod := v)
    case ArmorMod => e.(armorMod := v)
    case UtilitySlot => e.(utility := v)
  }

  /** `Object.values(equipment).includes(instanceId)`. */
  predicate Holds(e: Equipment, instanceId: string)
  {
    exists s :: SlotGet(e, s) == Some(instanceId)
  }

  datatype Unit = Unit(
    id: string, name: string, templateId: string, allegiance: Allegiance,
    pos: Position, health: int, maxHealth: int, ap: int, maxAp: int,
    moveSpeed: int, attackRange: int, attackDamage: int,
    experience: int, rank: string, equipment: Equipment,
    baseAbilities: seq<string>, abilities: seq<AbilityStatus>,
    effects: seq<TempEffect>, hasMoved: bool, kills: int, targetable: bool)

  datatype GameOverState = Playing | Victory | Defeat

  datatype PendingAction = PendingMove | PendingAttack | PendingSkip | PendingAbility(abilityId: string)

  /** A damage log entry; the wall-clock timestamp is not modelled. */
  datatype DamageEntry = DamageEntry(turn: int, allegiance: Allegiance, damage: int, targetName: string)

  datatype CombatState = CombatState(
    units: seq<Unit>, grid: Grid, selected: Option<string>,
    currentTurn: Allegiance, log: seq<string>, pending: Option<PendingAction>,
    gameOver: GameOverState, damageLog: seq<DamageEntry>, turnNumber: int,
    delegated: bool)

  /** Base template of a unit type (health and action points start at their maxima). */
  datatype UnitTemplate = UnitTemplate(
    templateId: string, name: string, maxHealth: int, maxAp: int,
    moveSpeed: int, attackRange: int, attackDamage: int, baseAbilities: seq<string>)

  datatype StatBonus = StatBonus(stat: Stat, amount: nat)

  /** A rank; `xpToNext` is None for the highest rank. */
  datatype RankData = RankData(name: string, xpToNext: Option<int>, bonuses: seq<StatBonus>)

  // ----- strategic layer -----

  datatype SavedUnit = SavedUnit(
    id: string, templateId: string, name: string, experience: int,
    rank: string, equipment: Equipment)

  datatype ResearchProject = ResearchProject(
    id: string, cost: int, duration: int, unlocks: seq<string>, prerequisites: seq<string>)

  datatype ActiveResearch = ActiveResearch(projectId: string, progress: int, remaining: int)

  datatype ResearchState = ResearchState(
    available: seq<string>, active: Option<ActiveResearch>,
    completed: seq<string>, allProjects: map<string, ResearchProject>)

  datatype Resource = Supplies | AlloyFragments

  datatype ResourceCost = ResourceCost(resource: Resource, amount: int)

  datatype CraftableItem = CraftableItem(
    id: string, effects: seq<string>, cost: seq<ResourceCost>,
    requiredResearchId: string, slotType: Option<Slot>)

  datatype InventoryItem = InventoryItem(itemId: string, instanceId: string)

  datatype MissionStatus = Available | InProgress | CompletedSuccess | CompletedFailure

  datatype Mission = Mission(id: string, difficulty: int, rewardSupplies: int, rewardAlloy: int, status: MissionStatus)

  // ----- unit lists, looked up by id as the source's find/findIndex do -----

  /** Index of the first unit with the given id (`findIndex`). */
  function IndexOf(units: seq<Unit>, id: string): (r: Option<nat>)
    ensures r.Some? ==> r.value < |units| && units[r.value].id == id
    ensures r.Some? ==> forall j :: 0 <= j < r.value ==> units[j].id != id
    ensures r.None? ==> forall j :: 0 <= j < |units| ==> units[j].id != id
  {
    if |units| == 0 then None
    else if units[0].id == id then Some(0)
    else match IndexOf(units[1..], id)
      case None => None
      case Some(k) => Some(k + 1)
  }

  /** The first unit with the given id (`find`). */
  function FindUnit(units: seq<Unit>, id: string): Option<Unit>
  {
    match IndexOf(units, id)
    case None => None
    case Some(k) => Some(units[k])
  }

  /**
   * No two units share an id, stated as: looking up any unit's id finds that
   * very unit. Two units with one id would be found at one index, so this is
   * the pairwise statement (`UniqueIdsDistinct`) in a form whose quantifier
   * ranges over one index rather than over pairs.
   */
  predicate UniqueIds(units: seq<Unit>)
  {
    forall k :: 0 <= k < |units| ==> IndexOf(units, units[k].id) == Some(k)
  }

  lemma UniqueIdsDistinct(units: seq<Unit>)
    ensures UniqueIds(units) <==> forall i, j :: 0 <= i < j < |units| ==> units[i].id != units[j].id
  {
  }

  /** Appending a unit whose id is new keeps ids unique. */
  lemma UniqueSnoc(units: seq<Unit>, u: Unit)
    requires UniqueIds(units)
    requires forall k :: 0 <= k < |units| ==> units[k].id != u.id
    ensures UniqueIds(units + [u])
  {
    var r := units + [u];
    forall k | 0 <= k < |r| ensures IndexOf(r, r[k].id) == Some(k) {
      if k < |units| {
        assert IndexOf(units, units[k].id) == Some(k);
        assert r[k] == units[k];
      }
    }
  }

  /** Dropping the last unit keeps ids unique. */
  lemma UniqueInit(units: seq<Unit>)
    requires UniqueIds(units) && |units| > 0
    ensures UniqueIds(units[..|units| - 1])
  {
    var init := units[..|units| - 1];
    forall k | 0 <= k < |init| ensures IndexOf(init, init[k].id) == Some(k) {
      assert IndexOf(units, units[k].id) == Some(k);
      assert init[k] == units[k];
    }
  }

  lemma UniqueIndexOf(units: seq<Unit>, k: nat)
    requires UniqueIds(units) && k < |units|
    ensures IndexOf(units, units[k].id) == Some(k)
  {
  }

  function Manhattan(a: Position, b: Position): nat
  {
    (if a.x >= b.x then a.x - b.x else b.x - a.x) + (if a.y >= b.y then a.y - b.y else b.y - a.y)
  }
}
