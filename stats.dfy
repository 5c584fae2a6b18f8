// Stat resolution (calculateEffectiveUnitStats): a unit's combat stats are its
// template's, plus its rank's bonuses, plus the bonuses parsed from completed
// research unlocks, plus those parsed from its equipped items, with current
// health and action points clamped to their maxima at the end.
module UnitStats {
  import opened Types
  import opened Constants
  import opened EffectParser

  /** The numbers the bonuses are added to. */
  datatype StatBlock = StatBlock(
    maxHealth: int, attackDamage: int, moveSpeed: int, attackRange: int,
    maxAp: int, health: int, ap: int)

  /** A unit's resolved stats (the unit record minus id, name override, side and position). */
  datatype EffectiveStats = EffectiveStats(
    templateId: string, name: string, health: int, maxHealth: int,
    ap: int, maxAp: int, moveSpeed: int, attackRange: int, attackDamage: int,
    baseAbilities: seq<string>, abilities: seq<AbilityStatus>,
    effects: seq<TempEffect>, kills: int, experience: int, rank: string,
    equipment: Equipment)

  function StatOf(b: StatBlock, st: Stat): int
  {
    match st
    case MaxHealth => b.maxHealth
    case AttackDamage => b.attackDamage
    case MoveSpeed => b.moveSpeed
    case AttackRange => b.attackRange
    case MaxActionPoints => b.maxAp
  }

  /** `workingStats[stat] += value`, and the same on health / action points for the two maxima. */
  function Bump(b: StatBlock, m: StatMod): (r: StatBlock)
    ensures StatOf(r, m.stat) == StatOf(b, m.stat) + m.value
    ensures forall st :: st != m.stat ==> StatOf(r, st) == StatOf(b, st)
    ensures r.health - r.maxHealth == b.health - b.maxHealth
    ensures r.ap - r.maxAp == b.ap - b.maxAp
  {
    match m.stat
    case MaxHealth => b.(maxHealth := b.maxHealth + m.value, health := b.health + m.value)
    case AttackDamage => b.(attackDamage := b.attackDamage + m.value)
    case MoveSpeed => b.(moveSpeed := b.moveSpeed + m.value)
    case AttackRange => b.(attackRange := b.attackRange + m.value)
    case MaxActionPoints => b.(maxAp := b.maxAp + m.value, ap := b.ap + m.value)
  }

  /** Bonuses applied left to right. */
  function ApplyMods(b: StatBlock, ms: seq<StatMod>): StatBlock
    decreases |ms|
  {
    if |ms| == 0 then b else Bump(ApplyMods(b, ms[..|ms| - 1]), ms[|ms| - 1])
  }

  /** Total of the bonuses for one stat. */
  function ModsTotal(ms: seq<StatMod>, st: Stat): int
    decreases |ms|
  {
    if |ms| == 0 then 0
    else ModsTotal(ms[..|ms| - 1], st) + (if ms[|ms| - 1].stat == st then ms[|ms| - 1].value else 0)
  }

  lemma {:induction false} ApplyModsTotals(b: StatBlock, ms: seq<StatMod>)
    ensures forall st :: StatOf(ApplyMods(b, ms), st) == StatOf(b, st) + ModsTotal(ms, st)
    ensures ApplyMods(b, ms).health - ApplyMods(b, ms).maxHealth == b.health - b.maxHealth
    ensures ApplyMods(b, ms).ap - ApplyMods(b, ms).maxAp == b.ap - b.maxAp
    decreases |ms|
  {
    if |ms| > 0 {
      ApplyModsTotals(b, ms[..|ms| - 1]);
    }
  }

  lemma {:induction false} ApplyModsAppend(b: StatBlock, xs: seq<StatMod>, ys: seq<StatMod>)
    ensures ApplyMods(b, xs + ys) == ApplyMods(ApplyMods(b, xs), ys)
    decreases |ys|
  {
    if |ys| == 0 {
      assert xs + ys == xs;
    } else {
      assert (xs + ys)[..|xs + ys| - 1] == xs + ys[..|ys| - 1];
      ApplyModsAppend(b, xs, ys[..|ys| - 1]);
    }
  }

  lemma {:induction false} ModsTotalAppend(xs: seq<StatMod>, ys: seq<StatMod>, st: Stat)
    ensures ModsTotal(xs + ys, st) == ModsTotal(xs, st) + ModsTotal(ys, st)
    decreases |ys|
  {
    if |ys| == 0 {
      assert xs + ys == xs;
    } else {
      assert (xs + ys)[..|xs + ys| - 1] == xs + ys[..|ys| - 1];
      ModsTotalAppend(xs, ys[..|ys| - 1], st);
    }
  }

  lemma {:induction false} ModsNonNegative(ms: seq<StatMod>, st: Stat)
    ensures ModsTotal(ms, st) >= 0
    decreases |ms|
  {
    if |ms| > 0 {
      ModsNonNegative(ms[..|ms| - 1], st);
    }
  }

  // ----- where the bonuses come from -----

  function BonusMods(bs: seq<StatBonus>): (r: seq<StatMod>)
    ensures |r| == |bs|
    ensures forall i :: 0 <= i < |bs| ==> r[i] == StatMod(bs[i].stat, bs[i].amount)
  {
    seq(|bs|, i requires 0 <= i < |bs| => StatMod(bs[i].stat, bs[i].amount))
  }

  /** The bonuses of the rank entry whose name is the unit's rank (none for an unknown rank). */
  function RankMods(rank: string): seq<StatMod>
  {
    match RankIndex(rank)
    case None => []
    case Some(k) => BonusMods(RANKS[k].bonuses)
  }

  /** The bonuses parsed out of a list of effect texts, texts that parse to nothing skipped. */
  function ParsedMods(texts: seq<string>): seq<StatMod>
    decreases |texts|
  {
    if |texts| == 0 then []
    else
      ParsedMods(texts[..|texts| - 1])
      + (match ParseEffectString(texts[|texts| - 1]) case None => [] case Some(m) => [m])
  }

  /** Unlock bonuses of the completed projects, in completion-list order. */
  function ResearchMods(completed: seq<string>, catalog: map<string, ResearchProject>): seq<StatMod>
    decreases |completed|
  {
    if |completed| == 0 then []
    else
      var id := completed[|completed| - 1];
      ResearchMods(completed[..|completed| - 1], catalog)
      + (if id in catalog then ParsedMods(catalog[id].unlocks) else [])
  }

  /** First inventory entry with the given instance id. */
  function FindInstance(inventory: seq<InventoryItem>, instanceId: string): (r: Option<InventoryItem>)
    ensures r.Some? ==> r.value in inventory && r.value.instanceId == instanceId
    ensures r.None? ==> forall it :: it in inventory ==> it.instanceId != instanceId
  {
    if |inventory| == 0 then None
    else if inventory[0].instanceId == instanceId then Some(inventory[0])
    else FindInstance(inventory[1..], instanceId)
  }

  /** Effect texts of the item in one slot; empty when the slot is empty, the instance is not in the inventory, or the item has no definition. */
  function SlotEffects(e: Equipment, s: Slot, inventory: seq<InventoryItem>, items: map<string, CraftableItem>): seq<string>
  {
    match SlotGet(e, s)
    case None => []
    case Some(inst) =>
      match FindInstance(inventory, inst)
      case None => []
      case Some(it) => if it.itemId in items then items[it.itemId].effects else []
  }

  function SlotMods(e: Equipment, slots: seq<Slot>, inventory: seq<InventoryItem>, items: map<string, CraftableItem>): seq<StatMod>
    decreases |slots|
  {
    if |slots| == 0 then []
    else SlotMods(e, slots[..|slots| - 1], inventory, items)
         + ParsedMods(SlotEffects(e, slots[|slots| - 1], inventory, items))
  }

  function EquipmentMods(e: Equipment, inventory: seq<InventoryItem>, items: map<string, CraftableItem>): seq<StatMod>
  {
    SlotMods(e, AllSlots, inventory, items)
  }

  /** Every bonus the unit receives, in the order the source applies them. */
  function AllMods(u: SavedUnit, completed: seq<string>, inventory: seq<InventoryItem>,
                   catalog: map<string, ResearchProject>, items: map<string, CraftableItem>): seq<StatMod>
  {
    RankMods(u.rank) + ResearchMods(completed, catalog) + EquipmentMods(u.equipment, inventory, items)
  }

  function TemplateBlock(t: UnitTemplate): StatBlock
  {
    StatBlock(t.maxHealth, t.attackDamage, t.moveSpeed, t.attackRange, t.maxAp, t.maxHealth, t.maxAp)
  }

  function Clamp(v: int, hi: int): int
  {
    if v > hi then (if hi < 0 then 0 else hi) else if v < 0 then 0 else v
  }

  function FreshAbilities(ids: seq<string>): (r: seq<AbilityStatus>)
    ensures |r| == |ids|
    ensures forall i :: 0 <= i < |ids| ==> r[i] == AbilityStatus(ids[i], 0)
  {
    seq(|ids|, i requires 0 <= i < |ids| => AbilityStatus(ids[i], 0))
  }

  function Finish(t: UnitTemplate, b: StatBlock, u: SavedUnit): EffectiveStats
  {
    EffectiveStats(
      u.templateId, t.name, Clamp(b.health, b.maxHealth), b.maxHealth,
      Clamp(b.ap, b.maxAp), b.maxAp, b.moveSpeed, b.attackRange, b.attackDamage,
      t.baseAbilities, FreshAbilities(t.baseAbilities), [], 0,
      u.experience, u.rank, u.equipment)
  }

  /**
   * The resolved stats. Each stat is its template value plus the total of the
   * relevant bonuses; an unknown template gives the rookie's unmodified stats.
   */
  function EffectiveStatsOf(u: SavedUnit, completed: seq<string>, inventory: seq<InventoryItem>,
                            catalog: map<string, ResearchProject>, items: map<string, CraftableItem>): (r: EffectiveStats)
    ensures u.templateId in UNIT_TEMPLATES ==>
      var t := UNIT_TEMPLATES[u.templateId];
      var ms := AllMods(u, completed, inventory, catalog, items);
      && r.maxHealth == t.maxHealth + ModsTotal(ms, MaxHealth)
      && r.attackDamage == t.attackDamage + ModsTotal(ms, AttackDamage)
      && r.moveSpeed == t.moveSpeed + ModsTotal(ms, MoveSpeed)
      && r.attackRange == t.attackRange + ModsTotal(ms, AttackRange)
      && r.maxAp == t.maxAp + ModsTotal(ms, MaxActionPoints)
    ensures u.templateId !in UNIT_TEMPLATES ==>
      && r.name == ROOKIE.name && r.maxHealth == ROOKIE.maxHealth && r.health == ROOKIE.maxHealth
      && r.attackDamage == ROOKIE.attackDamage && r.moveSpeed == ROOKIE.moveSpeed
      && r.attackRange == ROOKIE.attackRange && r.maxAp == ROOKIE.maxAp && r.ap == ROOKIE.maxAp
      && r.baseAbilities == ROOKIE.baseAbilities
    ensures r.templateId == u.templateId && r.experience == u.experience
    ensures r.rank == u.rank && r.equipment == u.equipment
    ensures r.effects == [] && r.kills == 0
    ensures |r.abilities| == |r.baseAbilities|
    ensures forall i :: 0 <= i < |r.baseAbilities| ==> r.abilities[i] == AbilityStatus(r.baseAbilities[i], 0)
  {
    if u.templateId !in UNIT_TEMPLATES then
      Finish(ROOKIE, TemplateBlock(ROOKIE), u)
    else
      var t := UNIT_TEMPLATES[u.templateId];
      var ms := AllMods(u, completed, inventory, catalog, items);
      ApplyModsTotals(TemplateBlock(t), ms);
      Finish(t, ApplyMods(TemplateBlock(t), ms), u)
  }

  /** Current health and AP equal their maxima whenever the template's maxima are non-negative. */
  lemma StartsAtFullStrength(u: SavedUnit, completed: seq<string>, inventory: seq<InventoryItem>,
                             catalog: map<string, ResearchProject>, items: map<string, CraftableItem>)
    requires u.templateId in UNIT_TEMPLATES ==>
      UNIT_TEMPLATES[u.templateId].maxHealth >= 0 && UNIT_TEMPLATES[u.templateId].maxAp >= 0
    ensures EffectiveStatsOf(u, completed, inventory, catalog, items).health
         == EffectiveStatsOf(u, completed, inventory, catalog, items).maxHealth
    ensures EffectiveStatsOf(u, completed, inventory, catalog, items).ap
         == EffectiveStatsOf(u, completed, inventory, catalog, items).maxAp
  {
    if u.templateId in UNIT_TEMPLATES {
      var t := UNIT_TEMPLATES[u.templateId];
      var ms := AllMods(u, completed, inventory, catalog, items);
      ApplyModsTotals(TemplateBlock(t), ms);
      ModsNonNegative(ms, MaxHealth);
      ModsNonNegative(ms, MaxActionPoints);
    }
  }

  /** Each stat bonus splits into the rank, research and equipment parts. */
  lemma BonusSources(u: SavedUnit, completed: seq<string>, inventory: seq<InventoryItem>,
                     catalog: map<string, ResearchProject>, items: map<string, CraftableItem>, st: Stat)
    ensures ModsTotal(AllMods(u, completed, inventory, catalog, items), st)
         == ModsTotal(RankMods(u.rank), st) + ModsTotal(ResearchMods(completed, catalog), st)
            + ModsTotal(EquipmentMods(u.equipment, inventory, items), st)
  {
    ModsTotalAppend(RankMods(u.rank), ResearchMods(completed, catalog), st);
    ModsTotalAppend(RankMods(u.rank) + ResearchMods(completed, catalog), EquipmentMods(u.equipment, inventory, items), st);
  }

  /** A slot whose instance is missing from the inventory, or whose item has no definition, contributes nothing. */
  lemma MissingItemContributesNothing(e: Equipment, s: Slot, inventory: seq<InventoryItem>, items: map<string, CraftableItem>)
    requires SlotGet(e, s).Some?
    requires FindInstance(inventory, SlotGet(e, s).value).None?
          || FindInstance(inventory, SlotGet(e, s).value).value.itemId !in items
    ensures ParsedMods(SlotEffects(e, s, inventory, items)) == []
  {
  }

  /** Research ids not in the catalogue contribute nothing. */
  lemma {:induction false} UnknownResearchIgnored(completed: seq<string>, id: string, catalog: map<string, ResearchProject>)
    requires id !in catalog
    ensures ResearchMods(completed + [id], catalog) == ResearchMods(completed, catalog)
  {
    assert (completed + [id])[..|completed + [id]| - 1] == completed;
  }

  // ----- the imperative resolution -----

  /** calculateEffectiveUnitStats: `+=` into a working copy over rank bonuses, research ids and slots. */
  method CalculateEffectiveUnitStats(u: SavedUnit, completed: seq<string>, inventory: seq<InventoryItem>,
                                     catalog: map<string, ResearchProject>, items: map<string, CraftableItem>)
    returns (r: EffectiveStats)
    ensures r == EffectiveStatsOf(u, completed, inventory, catalog, items)
  {
    if u.templateId !in UNIT_TEMPLATES {
      return Finish(ROOKIE, TemplateBlock(ROOKIE), u);
    }
    var t := UNIT_TEMPLATES[u.templateId];
    var w0 := TemplateBlock(t);
    var w1 := ApplyRankBonuses(w0, RankMods(u.rank));
    var w2 := ApplyResearch(w1, completed, catalog);
    var w3 := ApplyEquipment(w2, u.equipment, inventory, items);
    ApplyModsAppend(w0, RankMods(u.rank), ResearchMods(completed, catalog));
    ApplyModsAppend(w0, RankMods(u.rank) + ResearchMods(completed, catalog), EquipmentMods(u.equipment, inventory, items));
    r := Finish(t, w3, u);
  }

  method ApplyRankBonuses(b: StatBlock, ms: seq<StatMod>) returns (w: StatBlock)
    ensures w == ApplyMods(b, ms)
  {
    w := b;
    var i := 0;
    while i < |ms|
      invariant 0 <= i <= |ms|
      invariant w == ApplyMods(b, ms[..i])
    {
      assert ms[..i + 1][..i] == ms[..i];
      w := Bump(w, ms[i]);
      i := i + 1;
    }
    assert ms[..i] == ms;
  }

  method ApplyResearch(b: StatBlock, completed: seq<string>, catalog: map<string, ResearchProject>) returns (w: StatBlock)
    ensures w == ApplyMods(b, ResearchMods(completed, catalog))
  {
    w := b;
    var c := 0;
    while c < |completed|
      invariant 0 <= c <= |completed|
      invariant w == ApplyMods(b, ResearchMods(completed[..c], catalog))
    {
      var id := completed[c];
      var projectMods: seq<StatMod> := [];
      if id in catalog {
        w, projectMods := ApplyTexts(w, catalog[id].unlocks);
      }
      ghost var before := ResearchMods(completed[..c], catalog);
      ResearchModsStep(completed, c, catalog);
      ApplyModsAppend(b, before, projectMods);
      c := c + 1;
    }
    assert completed[..c] == completed;
  }

  /** One more completed project adds its own unlock bonuses at the end. */
  lemma ResearchModsStep(completed: seq<string>, c: nat, catalog: map<string, ResearchProject>)
    requires c < |completed|
    ensures ResearchMods(completed[..c + 1], catalog) ==
              ResearchMods(completed[..c], catalog) + (if completed[c] in catalog then ParsedMods(catalog[completed[c]].unlocks) else [])
  {
    assert completed[..c + 1][..c] == completed[..c];
  }

  method ApplyEquipment(b: StatBlock, e: Equipment, inventory: seq<InventoryItem>, items: map<string, CraftableItem>)
    returns (w: StatBlock)
    ensures w == ApplyMods(b, EquipmentMods(e, inventory, items))
  {
    w := b;
    var k := 0;
    while k < |AllSlots|
      invariant 0 <= k <= |AllSlots|
      invariant w == ApplyMods(b, SlotMods(e, AllSlots[..k], inventory, items))
    {
      var slotMods;
      w, slotMods := ApplyTexts(w, SlotEffects(e, AllSlots[k], inventory, items));
      ghost var before := SlotMods(e, AllSlots[..k], inventory, items);
      assert AllSlots[..k + 1][..k] == AllSlots[..k];
      ApplyModsAppend(b, before, slotMods);
      k := k + 1;
    }
    assert AllSlots[..k] == AllSlots;
  }

  /** Parses each text and adds every bonus found; also returns the bonuses applied. */
  method ApplyTexts(b: StatBlock, texts: seq<string>) returns (r: StatBlock, ms: seq<StatMod>)
    ensures ms == ParsedMods(texts)
    ensures r == ApplyMods(b, ms)
  {
    r, ms := b, [];
    var j := 0;
    while j < |texts|
      invariant 0 <= j <= |texts|
      invariant ms == ParsedMods(texts[..j])
      invariant r == ApplyMods(b, ms)
    {
      assert texts[..j + 1][..j] == texts[..j];
      var m := ParseEffectString(texts[j]);
      if m.Some? {
        ApplyModsAppend(b, ms, [m.value]);
        r := Bump(r, m.value);
        ms := ms + [m.value];
      }
      j := j + 1;
    }
    assert texts[..j] == texts;
  }
}
