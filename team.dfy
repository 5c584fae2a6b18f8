// The squad screen (components/TeamManagementView.tsx): the experience bar
// of a unit within its current rank, and the inventory items the equipment
// dialog offers for a slot.

module TeamView {
  import opened Types
  import opened Constants
  import opened Strategy

  /**
   * A unit's progress within its rank: experience earned since reaching it,
   * the rank's span (`None` standing for the source's `Infinity` at the top
   * rank), the bar's fill in percent and the next rank's name.
   */
  datatype XpProgress = XpProgress(currentXpInRank: int, xpForNextRank: Option<int>, percentage: real, nextRankName: Option<string>)

  /** The result for a rank name that is not in the rank table. */
  const UNKNOWN_RANK_PROGRESS := XpProgress(0, Some(100), 0.0, None)

  /** `xpToNextRank || Infinity`: a missing or zero span is unbounded. */
  function RankSpan(i: nat): Option<int>
    requires i < |RANKS|
  {
    match RANKS[i].xpToNext
    case Some(x) => if x != 0 then Some(x) else None
    case None => None
  }

  /** The bar's fill: capped at 100 for a bounded span, full for an unbounded one. */
  function Percentage(inRank: int, span: Option<int>): real
  {
    match span
    case None => 100.0
    case Some(x) =>
      if x > 0 then
        var p := (inRank as real / x as real) * 100.0;
        if p < 100.0 then p else 100.0
      else 0.0
  }

  /** The progress the source reports for a rank name and an experience total. */
  function ProgressOf(rank: string, experience: int): (r: XpProgress)
    ensures r.percentage <= 100.0
    ensures r.nextRankName.None? <==> RankIndex(rank).None? || RankIndex(rank).value == |RANKS| - 1
  {
    match RankIndex(rank)
    case None => UNKNOWN_RANK_PROGRESS
    case Some(i) =>
      XpProgress(experience - CumulativeXp(i), RankSpan(i),
                 Percentage(experience - CumulativeXp(i), RankSpan(i)),
                 if i < |RANKS| - 1 then Some(RANKS[i + 1].name) else None)
  }

  /**
   * getXpProgress: the rank is looked up by name, the spans of all lower
   * ranks are summed in a loop, and the fill and next rank follow.
   */
  method GetXpProgress(rank: string, experience: int) returns (r: XpProgress)
    ensures r == ProgressOf(rank, experience)
  {
    var found := RankIndex(rank);
    if found.None? {
      return UNKNOWN_RANK_PROGRESS;
    }
    var i := found.value;
    var prior := PriorRanksXp(i);
    var inRank := experience - prior;
    var span := RankSpan(i);
    var next := if i < |RANKS| - 1 then Some(RANKS[i + 1].name) else None;
    r := XpProgress(inRank, span, Percentage(inRank, span), next);
  }

  /**
   * What the bar shows for a known rank: the experience beyond all lower
   * ranks' spans, no next rank exactly at the top rank (else the following
   * rank), a full bar at the top rank and never more than full.
   */
  lemma ProgressOfKnownRank(i: nat, experience: int)
    requires i < |RANKS|
    ensures var r := ProgressOf(RANKS[i].name, experience);
      && r.currentXpInRank == experience - CumulativeXp(i)
      && (r.nextRankName.None? <==> i == |RANKS| - 1)
      && (i < |RANKS| - 1 ==> r.nextRankName == Some(RANKS[i + 1].name))
      && (r.xpForNextRank.None? <==> i == |RANKS| - 1)
      && (i == |RANKS| - 1 ==> r.percentage == 100.0)
      && r.percentage <= 100.0
      && (experience >= CumulativeXp(i) ==> r.percentage >= 0.0)
  {
    RankIndexOfName(i);
    OnlyLastRankCapped();
  }

  /** A rank name outside the table shows an empty bar of span 100 and no next rank. */
  lemma ProgressOfUnknownRank(rank: string, experience: int)
    requires forall i :: 0 <= i < |RANKS| ==> RANKS[i].name != rank
    ensures ProgressOf(rank, experience) == XpProgress(0, Some(100), 0.0, None)
  {
  }

  /**
   * After a mission's debriefing the bar of a unit below the top rank is
   * never full: promotion climbs while the experience reaches the next
   * threshold, so what is left is less than the rank's span.
   */
  lemma DebriefedBarNotFull(u: SavedUnit, gained: int, debriefed: SavedUnit)
    requires debriefed == Promotion(u, gained).unit
    ensures ProgressOf(debriefed.rank, debriefed.experience).nextRankName.Some? ==>
              ProgressOf(debriefed.rank, debriefed.experience).percentage < 100.0
  {
    var xp := u.experience + gained;
    var k := PromotedIndex(StartIndex(u.rank), xp);
    assert debriefed.rank == RANKS[k].name && debriefed.experience == xp;
    var shown := ProgressOf(RANKS[k].name, xp);
    assert ProgressOf(debriefed.rank, debriefed.experience) == shown;
    PromotionStops(StartIndex(u.rank), xp);
    StoppedBarNotFull(k, xp);
  }

  /** Where promotion stops, the bar is below full unless the rank is the top one. */
  lemma StoppedBarNotFull(k: nat, xp: int)
    requires k < |RANKS| && (k == |RANKS| - 1 || xp < CumulativeXp(k) + XpStep(k))
    ensures ProgressOf(RANKS[k].name, xp).nextRankName.Some? ==> ProgressOf(RANKS[k].name, xp).percentage < 100.0
  {
    if k < |RANKS| - 1 {
      ShortOfNextRank(k, xp);
    } else {
      ProgressOfKnownRank(k, xp);
    }
  }

  /** Below the top rank, experience short of the next threshold leaves the bar below full. */
  lemma ShortOfNextRank(k: nat, xp: int)
    requires k < |RANKS| - 1 && xp < CumulativeXp(k) + XpStep(k)
    ensures ProgressOf(RANKS[k].name, xp).percentage < 100.0
  {
    RankIndexOfName(k);
    OnlyLastRankCapped();
    assert RankSpan(k) == Some(XpStep(k));
    BelowSpanNotFull(xp - CumulativeXp(k), XpStep(k));
  }

  /** Experience short of a positive span leaves the bar below full. */
  lemma BelowSpanNotFull(inRank: int, span: int)
    requires 0 < span && inRank < span
    ensures Percentage(inRank, Some(span)) < 100.0
  {
    var q := inRank as real / span as real;
    assert q * span as real == inRank as real;
  }

  // ----- the equipment dialog -----

  /**
   * An inventory item is offered for a slot when its definition fits that
   * slot and no other roster member wears it, or it is what the slot
   * already holds.
   */
  predicate Offered(team: seq<SavedUnit>, unit: SavedUnit, slot: Slot, items: map<string, CraftableItem>, x: InventoryItem)
  {
    && x.itemId in items && items[x.itemId].slotType == Some(slot)
    && (!EquippedByOther(team, unit.id, x.instanceId) || SlotGet(unit.equipment, slot) == Some(x.instanceId))
  }

  /** `availableItemsForSlot`: the offered items, in inventory order. */
  function AvailableForSlot(inventory: seq<InventoryItem>, team: seq<SavedUnit>, unit: SavedUnit, slot: Slot,
                            items: map<string, CraftableItem>): (r: seq<InventoryItem>)
    ensures forall x :: x in r <==> x in inventory && Offered(team, unit, slot, items, x)
    ensures |r| <= |inventory|
  {
    if |inventory| == 0 then []
    else
      var init := inventory[..|inventory| - 1];
      var last := inventory[|inventory| - 1];
      assert inventory == init + [last];
      AvailableForSlot(init, team, unit, slot, items) + if Offered(team, unit, slot, items, last) then [last] else []
  }

  /**
   * The dialog and the equip rule agree: while every instance is worn by at
   * most one unit, equipping any offered item succeeds, and an item of the
   * inventory that equipping accepts is offered.
   */
  lemma OfferedMeansEquippable(g: GameData, unit: SavedUnit, slot: Slot, items: map<string, CraftableItem>, x: InventoryItem)
    requires ExclusiveEquipment(g.team) && DistinctMemberIds(g.team)
    requires FindMember(g.team, unit.id) == Some(unit)
    requires FindItem(g.inventory, x.instanceId) == Some(x)
    ensures x in AvailableForSlot(g.inventory, g.team, unit, slot, items) <==>
              Equip(g, unit.id, slot, x.instanceId, items).outcome == Done
  {
    if SlotGet(unit.equipment, slot) == Some(x.instanceId) {
      WornByNoOther(g.team, unit, slot, x.instanceId);
    }
  }

  /** While every instance is worn by at most one unit, what a member wears no other member does. */
  lemma WornByNoOther(team: seq<SavedUnit>, unit: SavedUnit, slot: Slot, instanceId: string)
    requires ExclusiveEquipment(team)
    requires FindMember(team, unit.id) == Some(unit)
    requires SlotGet(unit.equipment, slot) == Some(instanceId)
    ensures !EquippedByOther(team, unit.id, instanceId)
  {
    var m :| 0 <= m < |team| && team[m] == unit;
    forall k, s | 0 <= k < |team| && team[k].id != unit.id
      ensures SlotGet(team[k].equipment, s) != Some(instanceId)
    {
      assert k != m;
    }
  }
}
