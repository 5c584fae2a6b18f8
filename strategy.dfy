// The strategic layer's state and its transitions (contexts/GameContext.tsx):
// mission debriefing with experience and promotion, research, the roster,
// crafting and equipment. Each operation maps the game data to its updated
// copy; an operation that can be refused also reports why.

module Strategy {
  import opened Types
  import opened Constants
  import opened Combat

  datatype UnitProgress = UnitProgress(
    unitId: string, unitName: string, xpGained: int, promotedTo: Option<string>,
    initialRank: string, finalRank: string, initialXp: int, finalXp: int)

  datatype MissionOutcome = MissionOutcome(
    mission: Mission, status: GameOverState, enemiesDefeated: int, playerUnitsLost: int,
    unitProgress: Option<seq<UnitProgress>>)

  datatype GameData = GameData(
    supplies: int, alloy: int, missions: seq<Mission>, research: ResearchState,
    team: seq<SavedUnit>, inventory: seq<InventoryItem>,
    lastOutcome: Option<MissionOutcome>, justCompleted: Option<string>)

  datatype Failure =
    | ProjectNotFound | ResearchBusy | NotEnoughSupplies | PrerequisitesMissing
    | UnitNotFound | InvalidItem | BlueprintLocked | NotEnoughAlloy
    | ItemNotInInventory | ItemUndefined | WrongSlot | EquippedElsewhere | SlotEmpty

  datatype Outcome = Done | Failed(why: Failure)

  /** The game data after an operation, and whether it went through. */
  datatype Attempt = Attempt(data: GameData, outcome: Outcome)

  // ----- ranks and experience -----

  /** `RANKS[i].xpToNextRank || 0`. */
  function XpStep(i: nat): int
    requires i < |RANKS|
  {
    match RANKS[i].xpToNext
    case None => 0
    case Some(x) => x
  }

  /** The experience needed to reach rank `k` from nothing: the steps of all lower ranks. */
  function CumulativeXp(k: nat): int
    requires k <= |RANKS|
  {
    if k == 0 then 0 else CumulativeXp(k - 1) + XpStep(k - 1)
  }

  /** Higher ranks need strictly more experience. */
  lemma {:induction false} CumulativeXpIncreasing(j: nat, k: nat)
    requires j < k < |RANKS|
    ensures CumulativeXp(j) < CumulativeXp(k)
  {
    OnlyLastRankCapped();
    if j < k - 1 {
      CumulativeXpIncreasing(j, k - 1);
    }
  }

  /** The guard of the promotion loop: a next rank exists and the experience reaches it. */
  predicate CanPromote(i: nat, xp: int)
    requires i < |RANKS|
  {
    i < |RANKS| - 1 && RANKS[i].xpToNext.Some? && xp >= CumulativeXp(i) + XpStep(i)
  }

  /** The rank index the promotion loop stops at, starting from rank `i`. */
  function PromotedIndex(i: nat, xp: int): (r: nat)
    requires i < |RANKS|
    ensures i <= r < |RANKS|
    decreases |RANKS| - i
  {
    if CanPromote(i, xp) then PromotedIndex(i + 1, xp) else i
  }

  /** Where promotion stops, no further promotion is possible: the last rank, or too little experience for the next. */
  lemma {:induction false} PromotionStops(i: nat, xp: int)
    requires i < |RANKS|
    ensures var r := PromotedIndex(i, xp);
      r == |RANKS| - 1 || xp < CumulativeXp(r) + XpStep(r)
    decreases |RANKS| - i
  {
    OnlyLastRankCapped();
    if CanPromote(i, xp) {
      PromotionStops(i + 1, xp);
    }
  }

  /** Every rank gained was earned: the experience reaches the threshold of each rank passed. */
  lemma {:induction false} PromotionEarned(i: nat, xp: int, j: nat)
    requires i < |RANKS| && i < j <= PromotedIndex(i, xp)
    ensures xp >= CumulativeXp(j)
    decreases |RANKS| - i
  {
    if j > i + 1 {
      PromotionEarned(i + 1, xp, j);
    }
  }

  /** More experience never leads to a lower rank. */
  lemma {:induction false} PromotionMonotone(i: nat, x: int, y: int)
    requires i < |RANKS| && x <= y
    ensures PromotedIndex(i, x) <= PromotedIndex(i, y)
    decreases |RANKS| - i
  {
    if CanPromote(i, x) {
      PromotionMonotone(i + 1, x, y);
    }
  }

  /** The highest rank whose threshold the experience reaches (0 for none), by search from the top. */
  function RankForXp(xp: int, k: nat): (r: nat)
    requires k < |RANKS|
    ensures r <= k
    ensures r > 0 ==> CumulativeXp(r) <= xp
    ensures forall j :: r < j <= k ==> CumulativeXp(j) > xp
  {
    if k == 0 || CumulativeXp(k) <= xp then k else RankForXp(xp, k - 1)
  }

  /** Past where promotion stops, every rank's threshold lies beyond the experience. */
  lemma BeyondStopUnreached(i: nat, xp: int)
    requires i < |RANKS|
    ensures forall j :: PromotedIndex(i, xp) < j < |RANKS| ==> CumulativeXp(j) > xp
  {
    var r := PromotedIndex(i, xp);
    PromotionStops(i, xp);
    forall j | r < j < |RANKS| ensures CumulativeXp(j) > xp {
      assert CumulativeXp(r + 1) == CumulativeXp(r) + XpStep(r);
      if r + 1 < j {
        CumulativeXpIncreasing(r + 1, j);
      }
    }
  }

  /**
   * The loop's result depends on the experience alone, except that it never
   * lowers the starting rank: it is the higher of the start and the rank the
   * experience reaches.
   */
  lemma PromotionByThreshold(i: nat, xp: int)
    requires i < |RANKS|
    ensures PromotedIndex(i, xp) == if RankForXp(xp, |RANKS| - 1) > i then RankForXp(xp, |RANKS| - 1) else i
  {
    BeyondStopUnreached(i, xp);
    forall j | i < j <= PromotedIndex(i, xp) ensures CumulativeXp(j) <= xp {
      PromotionEarned(i, xp, j);
    }
  }

  /** An unknown rank counts as the lowest one. */
  function StartIndex(rank: string): (r: nat)
    ensures r < |RANKS|
    ensures RankIndex(rank).Some? ==> r == RankIndex(rank).value
    ensures RankIndex(rank).None? ==> r == 0
  {
    match RankIndex(rank)
    case None => 0
    case Some(k) => k
  }

  /** The experience a surviving unit earns: the victory reward plus the kill reward, nothing on defeat. */
  function XpGained(status: GameOverState, kills: int): (r: int)
    ensures status != Victory ==> r == 0
    ensures status == Victory ==> r == XP_PER_MISSION_VICTORY + XP_PER_KILL * kills
  {
    if status == Victory then XP_PER_MISSION_VICTORY + kills * XP_PER_KILL else 0
  }

  datatype Promoted = Promoted(unit: SavedUnit, progress: UnitProgress)

  /** The debriefing record of a unit that gains `gained` experience and ends at rank index `k`, having started at `start`. */
  function PromotionTo(u: SavedUnit, gained: int, start: nat, k: nat): Promoted
    requires k < |RANKS|
  {
    Promoted(u.(experience := u.experience + gained, rank := RANKS[k].name),
             UnitProgress(u.id, u.name, gained, if k > start then Some(RANKS[k].name) else None,
                          u.rank, RANKS[k].name, u.experience, u.experience + gained))
  }

  /** One survivor's debriefing: experience added, promoted as far as it reaches, progress recorded. */
  function Promotion(u: SavedUnit, gained: int): (r: Promoted)
    ensures r.unit == u.(experience := u.experience + gained, rank := r.progress.finalRank)
    ensures r.progress.finalRank == RANKS[PromotedIndex(StartIndex(u.rank), u.experience + gained)].name
    ensures r.progress.promotedTo.Some? <==> PromotedIndex(StartIndex(u.rank), u.experience + gained) > StartIndex(u.rank)
    ensures r.progress.initialXp == u.experience && r.progress.finalXp == u.experience + gained
    ensures r.progress.xpGained == gained && r.progress.initialRank == u.rank
    ensures r.progress.unitId == u.id && r.progress.unitName == u.name
  {
    PromotionTo(u, gained, StartIndex(u.rank), PromotedIndex(StartIndex(u.rank), u.experience + gained))
  }

  /** The rank after debriefing is a known rank, never below the unit's starting one. */
  lemma PromotionNeverDemotes(u: SavedUnit, gained: int)
    ensures var r := Promotion(u, gained).unit;
      RankIndex(r.rank).Some? && RankIndex(r.rank).value >= StartIndex(u.rank)
  {
    RankIndexOfName(PromotedIndex(StartIndex(u.rank), u.experience + gained));
  }

  /** The source's loop summing the experience steps of the ranks below `rankIndex`. */
  method PriorRanksXp(rankIndex: nat) returns (cumulative: int)
    requires rankIndex < |RANKS|
    ensures cumulative == CumulativeXp(rankIndex)
  {
    cumulative := 0;
    for i := 0 to rankIndex
      invariant cumulative == CumulativeXp(i)
    {
      cumulative := cumulative + XpStep(i);
    }
  }

  /** The source's promotion loop: climb one rank at a time while the experience reaches the next threshold. */
  method ClimbRanks(start: nat, cumulative0: int, finalXp: int) returns (k: nat)
    requires start < |RANKS| && cumulative0 == CumulativeXp(start)
    ensures k == PromotedIndex(start, finalXp)
  {
    var cumulative := cumulative0;
    k := start;
    while k < |RANKS| - 1 && RANKS[k].xpToNext.Some? && finalXp >= cumulative + XpStep(k)
      invariant start <= k < |RANKS| && cumulative == CumulativeXp(k)
      invariant PromotedIndex(k, finalXp) == PromotedIndex(start, finalXp)
      decreases |RANKS| - k
    {
      cumulative := cumulative + XpStep(k);
      k := k + 1;
    }
  }

  /**
   * The per-unit body of the debriefing: an unknown rank falls back to the
   * lowest one, then the unit climbs as far as its experience reaches, and
   * the new rank is recorded as a promotion when it differs from the start.
   */
  method PromoteUnit(u: SavedUnit, gained: int) returns (r: Promoted)
    ensures r == Promotion(u, gained)
  {
    var finalXp := u.experience + gained;
    var rankIndex := 0;
    var found := RankIndex(u.rank);
    if found.Some? {
      rankIndex := found.value;
    }
    var cumulative := PriorRanksXp(rankIndex);
    var k := ClimbRanks(rankIndex, cumulative, finalXp);
    var finalRank := RANKS[k].name;
    var promotedTo: Option<string> := None;
    if k > rankIndex {
      promotedTo := Some(finalRank);
    }
    r := Promoted(u.(experience := finalXp, rank := finalRank),
                  UnitProgress(u.id, u.name, gained, promotedTo, u.rank, finalRank, u.experience, finalXp));
  }

  // ----- mission completion (completeMissionCombat) -----

  /** `playerUnitsSurvivedStats.find(s => s.id === id)`. */
  function FindSurvivor(stats: seq<Survivor>, id: string): (r: Option<Survivor>)
    ensures r.Some? ==> r.value in stats && r.value.id == id
    ensures r.None? <==> forall k :: 0 <= k < |stats| ==> stats[k].id != id
  {
    if |stats| == 0 then None
    else if stats[0].id == id then Some(stats[0])
    else FindSurvivor(stats[1..], id)
  }

  /** The ids reported back from combat. */
  function SurvivorIds(stats: seq<Survivor>): set<string>
  {
    set s | s in stats :: s.id
  }

  /** The roster entries whose ids are among the survivors, in roster order. */
  function Surviving(team: seq<SavedUnit>, ids: set<string>): (r: seq<SavedUnit>)
    ensures |r| <= |team|
    ensures forall u :: u in r <==> u in team && u.id in ids
  {
    if |team| == 0 then []
    else
      var init := team[..|team| - 1];
      assert team == init + [team[|team| - 1]];
      Surviving(init, ids) + (if team[|team| - 1].id in ids then [team[|team| - 1]] else [])
  }

  /** The debriefing of the roster: every surviving unit promoted by its own kills, in roster order. */
  function Debriefed(team: seq<SavedUnit>, stats: seq<Survivor>, status: GameOverState): seq<Promoted>
  {
    if |team| == 0 then []
    else
      var u := team[|team| - 1];
      Debriefed(team[..|team| - 1], stats, status) +
        match FindSurvivor(stats, u.id)
        case None => []
        case Some(st) => [Promotion(u, XpGained(status, st.kills))]
  }

  /** How a roster entry comes back from the mission, given that it survived. */
  function Returned(u: SavedUnit, stats: seq<Survivor>, status: GameOverState): Promoted
    requires FindSurvivor(stats, u.id).Some?
  {
    Promotion(u, XpGained(status, FindSurvivor(stats, u.id).value.kills))
  }

  /**
   * The debriefed roster is the surviving roster entries, in their order,
   * each with its experience raised by the mission's reward and its rank
   * promoted accordingly.
   */
  lemma {:induction false} DebriefedAreSurvivors(team: seq<SavedUnit>, stats: seq<Survivor>, status: GameOverState)
    ensures var ps := Debriefed(team, stats, status);
      var kept := Surviving(team, SurvivorIds(stats));
      && |ps| == |kept|
      && forall k :: 0 <= k < |ps| ==> FindSurvivor(stats, kept[k].id).Some? && ps[k] == Returned(kept[k], stats, status)
  {
    if |team| > 0 {
      var init := team[..|team| - 1];
      var u := team[|team| - 1];
      DebriefedAreSurvivors(init, stats, status);
      assert u.id in SurvivorIds(stats) <==> FindSurvivor(stats, u.id).Some? by {
        if u.id in SurvivorIds(stats) {
          var st :| st in stats && st.id == u.id;
          var k :| 0 <= k < |stats| && stats[k] == st;
        }
      }
    }
  }

  function Units(ps: seq<Promoted>): (r: seq<SavedUnit>)
    ensures |r| == |ps| && forall k :: 0 <= k < |ps| ==> r[k] == ps[k].unit
  {
    seq(|ps|, k requires 0 <= k < |ps| => ps[k].unit)
  }

  function Progress(ps: seq<Promoted>): (r: seq<UnitProgress>)
    ensures |r| == |ps| && forall k :: 0 <= k < |ps| ==> r[k] == ps[k].progress
  {
    seq(|ps|, k requires 0 <= k < |ps| => ps[k].progress)
  }

  /** `Math.floor(x * 1.3)` in exact decimal arithmetic. */
  function Boosted(x: int): int
  {
    (13 * x) / 10
  }

  /** The map step: the completed mission gets its outcome status. */
  function MarkCompleted(missions: seq<Mission>, id: string, st: MissionStatus): (r: seq<Mission>)
    ensures |r| == |missions|
    ensures forall k :: 0 <= k < |r| ==> r[k] == if missions[k].id == id then missions[k].(status := st) else missions[k]
  {
    seq(|missions|, k requires 0 <= k < |missions| =>
          if missions[k].id == id then missions[k].(status := st) else missions[k])
  }

  /** The filter step: a mission of that id stays only while it is not completed. */
  function DropCompleted(missions: seq<Mission>, id: string): seq<Mission>
  {
    if |missions| == 0 then []
    else
      var m := missions[|missions| - 1];
      DropCompleted(missions[..|missions| - 1], id) +
        if m.id != id || (m.status != CompletedSuccess && m.status != CompletedFailure) then [m] else []
  }

  /** The missions without the ones of the given id, in order. */
  function Without(missions: seq<Mission>, id: string): (r: seq<Mission>)
    ensures forall m :: m in r <==> m in missions && m.id != id
  {
    if |missions| == 0 then []
    else
      var init := missions[..|missions| - 1];
      assert missions == init + [missions[|missions| - 1]];
      Without(init, id) + if missions[|missions| - 1].id != id then [missions[|missions| - 1]] else []
  }

  /** Marking then filtering removes exactly the completed mission's entries and keeps all others unchanged and in order. */
  lemma {:induction false} CompletedMissionRemoved(missions: seq<Mission>, id: string, st: MissionStatus)
    requires st == CompletedSuccess || st == CompletedFailure
    ensures DropCompleted(MarkCompleted(missions, id, st), id) == Without(missions, id)
  {
    if |missions| > 0 {
      var init := missions[..|missions| - 1];
      CompletedMissionRemoved(init, id, st);
      assert MarkCompleted(missions, id, st)[..|missions| - 1] == MarkCompleted(init, id, st);
    }
  }

  /** completeMissionCombat's state update, as a value. */
  function CompletedMission(g: GameData, status: GameOverState, mission: Mission, enemiesDefeated: int,
                            unitsLost: int, stats: seq<Survivor>): (r: GameData)
    ensures r.research == g.research && r.inventory == g.inventory && r.justCompleted == g.justCompleted
    ensures r.lastOutcome.Some? && r.lastOutcome.value.mission == mission && r.lastOutcome.value.status == status
    ensures r.lastOutcome.value.enemiesDefeated == enemiesDefeated && r.lastOutcome.value.playerUnitsLost == unitsLost
    ensures status != Victory ==> r.supplies == g.supplies && r.alloy == g.alloy
    ensures mission.rewardSupplies >= 0 && mission.rewardAlloy >= 0 ==> r.supplies >= g.supplies && r.alloy >= g.alloy
  {
    var ps := Debriefed(g.team, stats, status);
    var victory := status == Victory;
    g.(supplies := g.supplies + (if victory then Boosted(mission.rewardSupplies) else 0),
       alloy := g.alloy + (if victory && mission.rewardAlloy != 0 then Boosted(mission.rewardAlloy) else 0),
       missions := DropCompleted(MarkCompleted(g.missions, mission.id,
                                               if victory then CompletedSuccess else CompletedFailure), mission.id),
       team := Units(ps),
       lastOutcome := Some(MissionOutcome(mission, status, enemiesDefeated, unitsLost,
                                          if |ps| > 0 then Some(Progress(ps)) else None)))
  }

  /**
   * Completing a mission shrinks the roster to the survivors, in roster
   * order, each with the mission's experience added and the rank it reaches.
   */
  lemma CompletionKeepsSurvivors(g: GameData, status: GameOverState, mission: Mission, enemiesDefeated: int,
                                 unitsLost: int, stats: seq<Survivor>)
    ensures var team := CompletedMission(g, status, mission, enemiesDefeated, unitsLost, stats).team;
      var kept := Surviving(g.team, SurvivorIds(stats));
      && |team| == |kept|
      && forall k :: 0 <= k < |kept| ==> FindSurvivor(stats, kept[k].id).Some? && team[k] == Returned(kept[k], stats, status).unit
  {
    DebriefedAreSurvivors(g.team, stats, status);
  }

  /** A returning unit keeps its identity and equipment, gains the mission's experience and reaches the matching rank. */
  lemma ReturnedUnit(u: SavedUnit, stats: seq<Survivor>, status: GameOverState)
    requires FindSurvivor(stats, u.id).Some?
    ensures var gained := XpGained(status, FindSurvivor(stats, u.id).value.kills);
      var v := Returned(u, stats, status).unit;
      && v.id == u.id && v.templateId == u.templateId && v.name == u.name && v.equipment == u.equipment
      && v.experience == u.experience + gained
      && v.rank == RANKS[PromotedIndex(StartIndex(u.rank), u.experience + gained)].name
  {
    var p := Promotion(u, XpGained(status, FindSurvivor(stats, u.id).value.kills));
    assert Returned(u, stats, status) == p;
  }

  /**
   * Completing a mission removes it from the mission list and keeps every
   * other mission, in order; rewards are paid on victory only (the alloy
   * reward when it is set); research and inventory are untouched, and the
   * outcome carries progress records exactly when someone survived.
   */
  lemma CompletionUpdatesCampaign(g: GameData, status: GameOverState, mission: Mission, enemiesDefeated: int,
                                  unitsLost: int, stats: seq<Survivor>)
    ensures var r := CompletedMission(g, status, mission, enemiesDefeated, unitsLost, stats);
      && r.missions == Without(g.missions, mission.id)
      && r.supplies == g.supplies + (if status == Victory then (13 * mission.rewardSupplies) / 10 else 0)
      && r.alloy == g.alloy + (if status == Victory && mission.rewardAlloy != 0 then (13 * mission.rewardAlloy) / 10 else 0)
      && r.research == g.research && r.inventory == g.inventory && r.justCompleted == g.justCompleted
      && r.lastOutcome.Some? && r.lastOutcome.value.status == status
      && (r.lastOutcome.value.unitProgress.None? <==> |Surviving(g.team, SurvivorIds(stats))| == 0)
  {
    DebriefedAreSurvivors(g.team, stats, status);
    CompletedMissionRemoved(g.missions, mission.id, if status == Victory then CompletedSuccess else CompletedFailure);
  }

  /**
   * The roster pass of completeMissionCombat, with the source's loop: each
   * surviving entry is debriefed by the promotion loop and its progress
   * recorded.
   */
  method DebriefRoster(roster: seq<SavedUnit>, stats: seq<Survivor>, status: GameOverState)
    returns (team: seq<SavedUnit>, progress: seq<UnitProgress>)
    ensures team == Units(Debriefed(roster, stats, status))
    ensures progress == Progress(Debriefed(roster, stats, status))
  {
    team := [];
    progress := [];
    ghost var ps: seq<Promoted> := [];
    for i := 0 to |roster|
      invariant ps == Debriefed(roster[..i], stats, status)
      invariant team == Units(ps) && progress == Progress(ps)
    {
      var u := roster[i];
      DebriefedStep(roster, i, stats, status);
      var st := FindSurvivor(stats, u.id);
      if st.Some? {
        var gained := 0;
        if status == Victory {
          gained := XP_PER_MISSION_VICTORY + st.value.kills * XP_PER_KILL;
        }
        var p := PromoteUnit(u, gained);
        RecordsSnoc(ps, p);
        team := team + [p.unit];
        progress := progress + [p.progress];
        ps := ps + [p];
      }
    }
    assert roster[..|roster|] == roster;
  }

  /** One more debriefing record adds its unit and its progress at the end. */
  lemma RecordsSnoc(ps: seq<Promoted>, p: Promoted)
    ensures Units(ps + [p]) == Units(ps) + [p.unit]
    ensures Progress(ps + [p]) == Progress(ps) + [p.progress]
  {
  }

  /** One more roster entry adds its debriefing record, if it survived. */
  lemma DebriefedStep(roster: seq<SavedUnit>, i: nat, stats: seq<Survivor>, status: GameOverState)
    requires i < |roster|
    ensures Debriefed(roster[..i + 1], stats, status) == Debriefed(roster[..i], stats, status) +
              match FindSurvivor(stats, roster[i].id)
              case None => []
              case Some(st) => [Promotion(roster[i], XpGained(status, st.kills))]
  {
    assert roster[..i + 1][..i] == roster[..i];
  }

  /** completeMissionCombat: the roster pass, the rewards of a victory and the mission list update. */
  method CompleteMission(g: GameData, status: GameOverState, mission: Mission, enemiesDefeated: int,
                         unitsLost: int, stats: seq<Survivor>) returns (r: GameData)
    ensures r == CompletedMission(g, status, mission, enemiesDefeated, unitsLost, stats)
  {
    var team, progress := DebriefRoster(g.team, stats, status);
    var supplies := g.supplies;
    var alloy := g.alloy;
    if status == Victory {
      supplies := supplies + Boosted(mission.rewardSupplies);
      if mission.rewardAlloy != 0 {
        alloy := alloy + Boosted(mission.rewardAlloy);
      }
    }
    var missions := DropCompleted(MarkCompleted(g.missions, mission.id,
                                                if status == Victory then CompletedSuccess else CompletedFailure), mission.id);
    r := g.(supplies := supplies, alloy := alloy, missions := missions, team := team,
            lastOutcome := Some(MissionOutcome(mission, status, enemiesDefeated, unitsLost,
                                               if |progress| > 0 then Some(progress) else None)));
  }

  /** clearLastCompletedMissionDetails: the debriefing is dismissed, nothing else changes. */
  function ClearLastOutcome(g: GameData): (r: GameData)
    ensures r.lastOutcome.None?
    ensures r.(lastOutcome := g.lastOutcome) == g
  {
    g.(lastOutcome := None)
  }

  /** Dismissing the debriefing keeps everything the completed mission changed. */
  lemma DismissedDebriefKeepsCampaign(g: GameData, status: GameOverState, mission: Mission, enemiesDefeated: int,
                                      unitsLost: int, stats: seq<Survivor>)
    ensures var h := ClearLastOutcome(CompletedMission(g, status, mission, enemiesDefeated, unitsLost, stats));
      && h.lastOutcome.None? && h.missions == Without(g.missions, mission.id)
      && h.team == CompletedMission(g, status, mission, enemiesDefeated, unitsLost, stats).team
  {
    CompletionUpdatesCampaign(g, status, mission, enemiesDefeated, unitsLost, stats);
  }

  // ----- research (startResearchProject, advanceActiveResearch) -----

  /** Every prerequisite of the project is among the completed ones. */
  predicate PrerequisitesMet(p: ResearchProject, completed: seq<string>)
  {
    forall k :: 0 <= k < |p.prerequisites| ==> p.prerequisites[k] in completed
  }

  /**
   * startResearchProject: refused when the project is unknown, another
   * project is running, supplies fall short of the cost, or a prerequisite
   * is not completed (checked in that order); otherwise the cost is paid and
   * the project runs from progress 0 for its full duration.
   */
  function StartResearch(g: GameData, pid: string): (r: Attempt)
    ensures r.outcome == Done <==>
              && pid in g.research.allProjects && g.research.active.None?
              && g.supplies >= g.research.allProjects[pid].cost
              && PrerequisitesMet(g.research.allProjects[pid], g.research.completed)
    ensures r.outcome != Done ==> r.data == g
    ensures pid !in g.research.allProjects ==> r.outcome == Failed(ProjectNotFound)
    ensures pid in g.research.allProjects && g.research.active.Some? ==> r.outcome == Failed(ResearchBusy)
    ensures r.outcome == Done ==>
              var p := g.research.allProjects[pid];
              && r.data.supplies == g.supplies - p.cost
              && r.data.research == g.research.(active := Some(ActiveResearch(p.id, 0, p.duration)))
              && r.data.justCompleted.None?
              && r.data == g.(supplies := r.data.supplies, research := r.data.research, justCompleted := None)
  {
    if pid !in g.research.allProjects then Attempt(g, Failed(ProjectNotFound))
    else if g.research.active.Some? then Attempt(g, Failed(ResearchBusy))
    else if g.supplies < g.research.allProjects[pid].cost then Attempt(g, Failed(NotEnoughSupplies))
    else if !PrerequisitesMet(g.research.allProjects[pid], g.research.completed) then Attempt(g, Failed(PrerequisitesMissing))
    else
      var p := g.research.allProjects[pid];
      Attempt(g.(supplies := g.supplies - p.cost,
                 research := g.research.(active := Some(ActiveResearch(p.id, 0, p.duration))),
                 justCompleted := None), Done)
  }

  /** `list.filter((id, index, self) => self.indexOf(id) === index)`: the first occurrence of each id, in order. */
  function Dedup(xs: seq<string>): (r: seq<string>)
    ensures forall x :: x in r <==> x in xs
    ensures forall i, j :: 0 <= i < j < |r| ==> r[i] != r[j]
  {
    if |xs| == 0 then []
    else
      var init := xs[..|xs| - 1];
      assert xs == init + [xs[|xs| - 1]];
      Dedup(init) + if xs[|xs| - 1] in init then [] else [xs[|xs| - 1]]
  }

  /** A list without duplicates is left as it is. */
  lemma {:induction false} DedupDistinct(xs: seq<string>)
    requires forall i, j :: 0 <= i < j < |xs| ==> xs[i] != xs[j]
    ensures Dedup(xs) == xs
  {
    if |xs| > 0 {
      DedupDistinct(xs[..|xs| - 1]);
    }
  }

  /**
   * advanceActiveResearch: one unit of progress on the running project. At
   * its duration the project completes (added once to the completed list)
   * and nothing runs any more; before that progress and remaining time move
   * by one. Nothing happens without a running, known project.
   */
  function AdvanceResearch(g: GameData): (r: GameData)
    ensures g.research.active.None? || g.research.active.value.projectId !in g.research.allProjects ==> r == g
    ensures r.research.allProjects == g.research.allProjects && r.research.available == g.research.available
    ensures r.supplies == g.supplies && r.alloy == g.alloy && r.team == g.team && r.inventory == g.inventory
    ensures g.research.active.Some? && g.research.active.value.projectId in g.research.allProjects ==>
              var a := g.research.active.value;
              var d := g.research.allProjects[a.projectId].duration;
              if a.progress + 1 >= d then
                && r.research.active.None? && r.justCompleted == Some(a.projectId)
                && (forall x :: x in r.research.completed <==> x in g.research.completed || x == a.projectId)
                && (forall i, j :: 0 <= i < j < |r.research.completed| ==> r.research.completed[i] != r.research.completed[j])
              else
                && r.research.active == Some(ActiveResearch(a.projectId, a.progress + 1, d - (a.progress + 1)))
                && r.research.completed == g.research.completed && r.justCompleted == g.justCompleted
  {
    if g.research.active.None? then g
    else
      var a := g.research.active.value;
      if a.projectId !in g.research.allProjects then g
      else
        var p := g.research.allProjects[a.projectId];
        var progress := a.progress + 1;
        if progress >= p.duration then
          g.(research := g.research.(active := None, completed := Dedup(g.research.completed + [a.projectId])),
             justCompleted := Some(a.projectId))
        else
          g.(research := g.research.(active := Some(a.(progress := progress, remaining := p.duration - progress))))
  }

  /** Advancing the research `n` times. */
  function AdvanceTimes(g: GameData, n: nat): GameData
  {
    if n == 0 then g else AdvanceResearch(AdvanceTimes(g, n - 1))
  }

  /**
   * A started project of duration `d` is running with progress `n` after
   * `n < d` advances and is completed after exactly `d`; supplies are paid
   * once, at the start.
   */
  lemma {:induction false} ResearchRunsItsDuration(g: GameData, pid: string, n: nat)
    requires StartResearch(g, pid).outcome == Done
    requires g.research.allProjects[pid].id == pid
    requires 1 <= n <= g.research.allProjects[pid].duration
    ensures var d := g.research.allProjects[pid].duration;
      var h := AdvanceTimes(StartResearch(g, pid).data, n);
      && h.supplies == g.supplies - g.research.allProjects[pid].cost
      && h.research.allProjects == g.research.allProjects
      && (n < d ==> h.research.active == Some(ActiveResearch(pid, n, d - n)))
      && (n == d ==> h.research.active.None? && pid in h.research.completed && h.justCompleted == Some(pid))
  {
    if n > 1 {
      ResearchRunsItsDuration(g, pid, n - 1);
    }
  }

  /** acknowledgeResearchCompletion: the completion notice is dismissed, nothing else changes. */
  function AcknowledgeResearch(g: GameData): (r: GameData)
    ensures r.justCompleted.None?
    ensures r.(justCompleted := g.justCompleted) == g
  {
    g.(justCompleted := None)
  }

  /**
   * Acknowledging a project that ran its full duration dismisses the notice
   * and keeps the project completed, with nothing running.
   */
  lemma AcknowledgedCompletionKept(g: GameData, pid: string)
    requires StartResearch(g, pid).outcome == Done
    requires g.research.allProjects[pid].id == pid && g.research.allProjects[pid].duration >= 1
    ensures var h := AcknowledgeResearch(AdvanceTimes(StartResearch(g, pid).data, g.research.allProjects[pid].duration));
      && h.justCompleted.None? && h.research.active.None? && pid in h.research.completed
  {
    ResearchRunsItsDuration(g, pid, g.research.allProjects[pid].duration);
  }

  // ----- the roster (recruitNewUnit, dismissTeamUnit, updateTeamUnitName) -----

  /** `teamUnits.find(u => u.id === id)`. */
  function FindMember(team: seq<SavedUnit>, id: string): (r: Option<SavedUnit>)
    ensures r.Some? ==> r.value in team && r.value.id == id
    ensures r.None? <==> forall k :: 0 <= k < |team| ==> team[k].id != id
  {
    if |team| == 0 then None
    else if team[0].id == id then Some(team[0])
    else FindMember(team[1..], id)
  }

  function DigitChar(d: nat): char
    requires d < 10
  {
    "0123456789"[d]
  }

  /** The decimal numeral of a natural number. */
  function Numeral(n: nat): (r: string)
    ensures |r| >= 1
    decreases n
  {
    if n < 10 then [DigitChar(n)] else Numeral(n / 10) + [DigitChar(n % 10)]
  }

  /** The generic squad-member name used when the template is unknown or unnamed. */
  const DEFAULT_UNIT_NAME := "분대원"

  /** A recruit's name: the template's name, or the generic one, followed by the roster's new size. */
  function RecruitName(templateId: string, position: nat): string
  {
    (if templateId in UNIT_TEMPLATES && UNIT_TEMPLATES[templateId].name != "" then UNIT_TEMPLATES[templateId].name
     else DEFAULT_UNIT_NAME) + " " + Numeral(position)
  }

  /**
   * recruitNewUnit, with the new id passed in: refused below the recruiting
   * cost; otherwise the cost is paid and a fresh lowest-rank unit without
   * experience or equipment joins the end of the roster.
   */
  function Recruit(g: GameData, templateId: string, newId: string): (r: Attempt)
    ensures g.supplies < RECRUIT_COST <==> r.outcome == Failed(NotEnoughSupplies)
    ensures r.outcome != Done ==> r.data == g
    ensures r.outcome == Done ==>
              && r.data == g.(supplies := g.supplies - RECRUIT_COST, team := r.data.team)
              && |r.data.team| == |g.team| + 1 && r.data.team[..|g.team|] == g.team
              && var u := r.data.team[|g.team|];
                 u.id == newId && u.templateId == templateId && u.experience == 0
                 && u.rank == RANKS[0].name && u.equipment == NoEquipment
                 && u.name == RecruitName(templateId, |g.team| + 1)
  {
    if g.supplies < RECRUIT_COST then Attempt(g, Failed(NotEnoughSupplies))
    else
      var u := SavedUnit(newId, templateId, RecruitName(templateId, |g.team| + 1), 0, RANKS[0].name, NoEquipment);
      Attempt(g.(supplies := g.supplies - RECRUIT_COST, team := g.team + [u]), Done)
  }

  /** The roster without the units of the given id, in order. */
  function WithoutMember(team: seq<SavedUnit>, id: string): (r: seq<SavedUnit>)
    ensures forall u :: u in r <==> u in team && u.id != id
    ensures (forall k :: 0 <= k < |team| ==> team[k].id != id) ==> r == team
  {
    if |team| == 0 then []
    else
      var init := team[..|team| - 1];
      assert team == init + [team[|team| - 1]];
      WithoutMember(init, id) + if team[|team| - 1].id != id then [team[|team| - 1]] else []
  }

  /** dismissTeamUnit: refused for an unknown id; otherwise every unit of that id leaves the roster. */
  function Dismiss(g: GameData, id: string): (r: Attempt)
    ensures FindMember(g.team, id).None? <==> r.outcome == Failed(UnitNotFound)
    ensures r.outcome != Done ==> r.data == g
    ensures r.outcome == Done ==> r.data == g.(team := WithoutMember(g.team, id))
  {
    if FindMember(g.team, id).None? then Attempt(g, Failed(UnitNotFound))
    else Attempt(g.(team := WithoutMember(g.team, id)), Done)
  }

  /** Dismissing a freshly recruited unit gives back the roster as it was (the recruiting cost is not refunded). */
  lemma RecruitThenDismiss(g: GameData, templateId: string, newId: string)
    requires g.supplies >= RECRUIT_COST
    requires forall k :: 0 <= k < |g.team| ==> g.team[k].id != newId
    ensures var h := Recruit(g, templateId, newId).data;
      Dismiss(h, newId).outcome == Done && Dismiss(h, newId).data.team == g.team
  {
    var h := Recruit(g, templateId, newId).data;
    var u := h.team[|g.team|];
    assert h.team == g.team + [u];
    assert h.team[..|h.team| - 1] == g.team;
    assert FindMember(h.team, newId).Some? by {
      assert h.team[|g.team|].id == newId;
    }
  }

  /** updateTeamUnitName: refused for an unknown id; otherwise every unit of that id takes the new name. */
  function Rename(g: GameData, id: string, newName: string): (r: Attempt)
    ensures FindMember(g.team, id).None? <==> r.outcome == Failed(UnitNotFound)
    ensures r.outcome != Done ==> r.data == g
    ensures r.outcome == Done ==>
              && r.data == g.(team := r.data.team) && |r.data.team| == |g.team|
              && forall k :: 0 <= k < |g.team| ==>
                   r.data.team[k].(name := g.team[k].name) == g.team[k]
                   && (g.team[k].id == id ==> r.data.team[k].name == newName)
                   && (g.team[k].id != id ==> r.data.team[k] == g.team[k])
  {
    if FindMember(g.team, id).None? then Attempt(g, Failed(UnitNotFound))
    else Attempt(g.(team := seq(|g.team|, k requires 0 <= k < |g.team| =>
                                  if g.team[k].id == id then g.team[k].(name := newName) else g.team[k])), Done)
  }

  /** Renaming twice to the same name is renaming once. */
  lemma RenameIdempotent(g: GameData, id: string, newName: string)
    ensures Rename(Rename(g, id, newName).data, id, newName).data == Rename(g, id, newName).data
  {
    var h := Rename(g, id, newName).data;
    if Rename(g, id, newName).outcome == Done {
      assert FindMember(h.team, id).Some? by {
        var k :| 0 <= k < |g.team| && g.team[k].id == id;
        assert h.team[k].id == id;
      }
      var h2 := Rename(h, id, newName).data;
      forall k | 0 <= k < |h.team| ensures h2.team[k] == h.team[k] {
        assert h.team[k].id == g.team[k].id;
      }
      assert h2.team == h.team;
    }
  }

  // ----- crafting (craftItem) -----

  /** One cost entry is covered by the current stock of its resource. */
  predicate Affordable(c: ResourceCost, supplies: int, alloy: int)
  {
    match c.resource
    case Supplies => supplies >= c.amount
    case AlloyFragments => alloy >= c.amount
  }

  /** The first cost entry, in list order, that the stock does not cover. */
  function FirstShortfall(costs: seq<ResourceCost>, supplies: int, alloy: int): (r: Option<Failure>)
    ensures r.None? <==> forall k :: 0 <= k < |costs| ==> Affordable(costs[k], supplies, alloy)
    ensures r.Some? ==> r.value == NotEnoughSupplies || r.value == NotEnoughAlloy
  {
    if |costs| == 0 then None
    else if !Affordable(costs[0], supplies, alloy) then
      Some(if costs[0].resource == Supplies then NotEnoughSupplies else NotEnoughAlloy)
    else FirstShortfall(costs[1..], supplies, alloy)
  }

  /** The total amount of one resource over a cost list. */
  function Spent(costs: seq<ResourceCost>, res: Resource): int
  {
    if |costs| == 0 then 0
    else Spent(costs[..|costs| - 1], res) + if costs[|costs| - 1].resource == res then costs[|costs| - 1].amount else 0
  }

  /** Each resource appears at most once in the cost list. */
  predicate DistinctResources(costs: seq<ResourceCost>)
  {
    forall i, j :: 0 <= i < j < |costs| ==> costs[i].resource != costs[j].resource
  }

  lemma {:induction false} SpentAbsent(costs: seq<ResourceCost>, res: Resource)
    requires forall k :: 0 <= k < |costs| ==> costs[k].resource != res
    ensures Spent(costs, res) == 0
  {
    if |costs| > 0 {
      SpentAbsent(costs[..|costs| - 1], res);
    }
  }

  /** With each resource listed once, what is spent of it is covered by a stock that covers every entry. */
  lemma {:induction false} SpentCovered(costs: seq<ResourceCost>, res: Resource, stock: int)
    requires DistinctResources(costs) && stock >= 0
    requires forall k :: 0 <= k < |costs| && costs[k].resource == res ==> costs[k].amount <= stock
    ensures Spent(costs, res) <= stock
  {
    if |costs| > 0 {
      var init := costs[..|costs| - 1];
      if costs[|costs| - 1].resource == res {
        SpentAbsent(init, res);
      } else {
        SpentCovered(init, res, stock);
      }
    }
  }

  /**
   * craftItem, with the new instance id passed in: refused for an unknown
   * item, a blueprint whose research is not completed, or the first cost
   * entry the stock does not cover; otherwise every cost is deducted and
   * exactly one instance of the item joins the inventory.
   */
  function Crafted(g: GameData, itemId: string, instanceId: string, items: map<string, CraftableItem>): (r: Attempt)
    ensures itemId !in items <==> r.outcome == Failed(InvalidItem)
    ensures r.outcome != Done ==> r.data == g
    ensures r.outcome == Done <==>
              && itemId in items
              && (items[itemId].requiredResearchId == "" || items[itemId].requiredResearchId in g.research.completed)
              && forall k :: 0 <= k < |items[itemId].cost| ==> Affordable(items[itemId].cost[k], g.supplies, g.alloy)
    ensures r.outcome == Done ==>
              && r.data == g.(supplies := r.data.supplies, alloy := r.data.alloy, inventory := r.data.inventory)
              && r.data.supplies == g.supplies - Spent(items[itemId].cost, Supplies)
              && r.data.alloy == g.alloy - Spent(items[itemId].cost, AlloyFragments)
              && r.data.inventory == g.inventory + [InventoryItem(items[itemId].id, instanceId)]
  {
    if itemId !in items then Attempt(g, Failed(InvalidItem))
    else
      var def := items[itemId];
      if def.requiredResearchId != "" && def.requiredResearchId !in g.research.completed then Attempt(g, Failed(BlueprintLocked))
      else match FirstShortfall(def.cost, g.supplies, g.alloy)
        case Some(f) => Attempt(g, Failed(f))
        case None =>
          Attempt(g.(supplies := g.supplies - Spent(def.cost, Supplies), alloy := g.alloy - Spent(def.cost, AlloyFragments),
                     inventory := g.inventory + [InventoryItem(def.id, instanceId)]), Done)
  }

  /** When each resource is listed once, crafting never overdraws a stock that was not negative. */
  lemma CraftingNeverOverdraws(g: GameData, itemId: string, instanceId: string, items: map<string, CraftableItem>)
    requires itemId in items && DistinctResources(items[itemId].cost)
    requires g.supplies >= 0 && g.alloy >= 0
    ensures Crafted(g, itemId, instanceId, items).data.supplies >= 0
    ensures Crafted(g, itemId, instanceId, items).data.alloy >= 0
  {
    if Crafted(g, itemId, instanceId, items).outcome == Done {
      SpentCovered(items[itemId].cost, Supplies, g.supplies);
      SpentCovered(items[itemId].cost, AlloyFragments, g.alloy);
    }
  }

  /** The source's check loop: the first cost entry in order that the stock does not cover. */
  method CheckCosts(costs: seq<ResourceCost>, supplies: int, alloy: int) returns (r: Option<Failure>)
    ensures r == FirstShortfall(costs, supplies, alloy)
  {
    for i := 0 to |costs|
      invariant FirstShortfall(costs, supplies, alloy) == FirstShortfall(costs[i..], supplies, alloy)
    {
      assert costs[i..][1..] == costs[i + 1..];
      if costs[i].resource == Supplies && supplies < costs[i].amount {
        return Some(NotEnoughSupplies);
      }
      if costs[i].resource == AlloyFragments && alloy < costs[i].amount {
        return Some(NotEnoughAlloy);
      }
    }
    return None;
  }

  /** The source's deduction loop over the cost entries. */
  method Deduct(costs: seq<ResourceCost>, supplies0: int, alloy0: int) returns (supplies: int, alloy: int)
    ensures supplies == supplies0 - Spent(costs, Supplies)
    ensures alloy == alloy0 - Spent(costs, AlloyFragments)
  {
    supplies, alloy := supplies0, alloy0;
    for i := 0 to |costs|
      invariant supplies == supplies0 - Spent(costs[..i], Supplies)
      invariant alloy == alloy0 - Spent(costs[..i], AlloyFragments)
    {
      assert costs[..i + 1][..i] == costs[..i];
      if costs[i].resource == Supplies {
        supplies := supplies - costs[i].amount;
      }
      if costs[i].resource == AlloyFragments {
        alloy := alloy - costs[i].amount;
      }
    }
    assert costs[..|costs|] == costs;
  }

  /** craftItem with the source's loops. */
  method CraftItem(g: GameData, itemId: string, instanceId: string, items: map<string, CraftableItem>) returns (r: Attempt)
    ensures r == Crafted(g, itemId, instanceId, items)
  {
    if itemId !in items {
      return Attempt(g, Failed(InvalidItem));
    }
    var def := items[itemId];
    if def.requiredResearchId != "" && def.requiredResearchId !in g.research.completed {
      return Attempt(g, Failed(BlueprintLocked));
    }
    var shortfall := CheckCosts(def.cost, g.supplies, g.alloy);
    if shortfall.Some? {
      return Attempt(g, Failed(shortfall.value));
    }
    var supplies, alloy := Deduct(def.cost, g.supplies, g.alloy);
    r := Attempt(g.(supplies := supplies, alloy := alloy, inventory := g.inventory + [InventoryItem(def.id, instanceId)]), Done);
  }

  // ----- equipment (equipItem, unequipItem) -----

  /** `playerInventory.find(item => item.instanceId === id)`. */
  function FindItem(inventory: seq<InventoryItem>, instanceId: string): (r: Option<InventoryItem>)
    ensures r.Some? ==> r.value in inventory && r.value.instanceId == instanceId
    ensures r.None? <==> forall k :: 0 <= k < |inventory| ==> inventory[k].instanceId != instanceId
  {
    if |inventory| == 0 then None
    else if inventory[0].instanceId == instanceId then Some(inventory[0])
    else FindItem(inventory[1..], instanceId)
  }

  /** Some unit other than `unitId` holds the instance in one of its slots. */
  predicate EquippedByOther(team: seq<SavedUnit>, unitId: string, instanceId: string)
  {
    exists k, s :: 0 <= k < |team| && team[k].id != unitId && SlotGet(team[k].equipment, s) == Some(instanceId)
  }

  /** The instance goes into the slot, leaving any other slot of the same unit that held it. */
  function EquipSlot(e: Equipment, slot: Slot, instanceId: string): (r: Equipment)
    ensures SlotGet(r, slot) == Some(instanceId)
    ensures forall s :: s != slot ==> SlotGet(r, s) == if SlotGet(e, s) == Some(instanceId) then None else SlotGet(e, s)
  {
    var cleared := Equipment(
      if e.primaryWeapon == Some(instanceId) && slot != PrimaryWeapon then None else e.primaryWeapon,
      if e.weaponMod == Some(instanceId) && slot != WeaponMod then None else e.weaponMod,
      if e.armorMod == Some(instanceId) && slot != ArmorMod then None else e.armorMod,
      if e.utility == Some(instanceId) && slot != UtilitySlot then None else e.utility);
    SlotSet(cleared, slot, Some(instanceId))
  }

  /** The roster with `f` applied to the equipment of every unit of the given id. */
  function EquipAll(team: seq<SavedUnit>, unitId: string, slot: Slot, instanceId: string): (r: seq<SavedUnit>)
    ensures |r| == |team|
    ensures forall k :: 0 <= k < |team| ==>
              r[k] == if team[k].id == unitId then team[k].(equipment := EquipSlot(team[k].equipment, slot, instanceId)) else team[k]
  {
    seq(|team|, k requires 0 <= k < |team| =>
          if team[k].id == unitId then team[k].(equipment := EquipSlot(team[k].equipment, slot, instanceId)) else team[k])
  }

  /**
   * equipItem: refused for an unknown unit, an instance not in the
   * inventory, an item without a definition, a slot other than the item's,
   * or an instance another unit holds (checked in that order); otherwise the
   * unit holds the instance in that slot and in no other.
   */
  function Equip(g: GameData, unitId: string, slot: Slot, instanceId: string, items: map<string, CraftableItem>): (r: Attempt)
    ensures r.outcome != Done ==> r.data == g
    ensures FindMember(g.team, unitId).None? ==> r.outcome == Failed(UnitNotFound)
    ensures r.outcome == Done <==>
              && FindMember(g.team, unitId).Some? && FindItem(g.inventory, instanceId).Some?
              && FindItem(g.inventory, instanceId).value.itemId in items
              && items[FindItem(g.inventory, instanceId).value.itemId].slotType == Some(slot)
              && !EquippedByOther(g.team, unitId, instanceId)
    ensures r.outcome == Done ==> r.data == g.(team := EquipAll(g.team, unitId, slot, instanceId))
  {
    if FindMember(g.team, unitId).None? then Attempt(g, Failed(UnitNotFound))
    else match FindItem(g.inventory, instanceId)
      case None => Attempt(g, Failed(ItemNotInInventory))
      case Some(item) =>
        if item.itemId !in items then Attempt(g, Failed(ItemUndefined))
        else if items[item.itemId].slotType != Some(slot) then Attempt(g, Failed(WrongSlot))
        else if EquippedByOther(g.team, unitId, instanceId) then Attempt(g, Failed(EquippedElsewhere))
        else Attempt(g.(team := EquipAll(g.team, unitId, slot, instanceId)), Done)
  }

  /** No equipment instance is held by two different roster entries. */
  predicate ExclusiveEquipment(team: seq<SavedUnit>)
  {
    forall i, j, s, t :: 0 <= i < |team| && 0 <= j < |team| && i != j && SlotGet(team[i].equipment, s).Some? ==>
      SlotGet(team[i].equipment, s) != SlotGet(team[j].equipment, t)
  }

  predicate DistinctMemberIds(team: seq<SavedUnit>)
  {
    forall i, j :: 0 <= i < j < |team| ==> team[i].id != team[j].id
  }

  /** Equipping keeps every instance with at most one unit, as long as roster ids are distinct. */
  lemma EquipKeepsExclusive(g: GameData, unitId: string, slot: Slot, instanceId: string, items: map<string, CraftableItem>)
    requires ExclusiveEquipment(g.team) && DistinctMemberIds(g.team)
    ensures ExclusiveEquipment(Equip(g, unitId, slot, instanceId, items).data.team)
  {
    var r := Equip(g, unitId, slot, instanceId, items);
    if r.outcome == Done {
      var team := r.data.team;
      forall i, j, s, t | 0 <= i < |team| && 0 <= j < |team| && i != j && SlotGet(team[i].equipment, s).Some?
        ensures SlotGet(team[i].equipment, s) != SlotGet(team[j].equipment, t)
      {
        if g.team[i].id == unitId && s == slot {
          assert SlotGet(team[j].equipment, t) != Some(instanceId) by {
            assert g.team[j].id != unitId;
            assert SlotGet(g.team[j].equipment, t) != Some(instanceId);
          }
        } else if g.team[j].id == unitId && t == slot {
          assert SlotGet(team[i].equipment, s) == SlotGet(g.team[i].equipment, s);
          assert SlotGet(g.team[i].equipment, s) != Some(instanceId);
        } else {
          assert SlotGet(team[i].equipment, s) == SlotGet(g.team[i].equipment, s);
          assert SlotGet(team[j].equipment, t) == SlotGet(g.team[j].equipment, t) || SlotGet(team[j].equipment, t).None?;
        }
      }
    }
  }

  /** The roster with the slot emptied on every unit of the given id. */
  function UnequipAll(team: seq<SavedUnit>, unitId: string, slot: Slot): (r: seq<SavedUnit>)
    ensures |r| == |team|
    ensures forall k :: 0 <= k < |team| ==>
              r[k] == if team[k].id == unitId then team[k].(equipment := SlotSet(team[k].equipment, slot, None)) else team[k]
  {
    seq(|team|, k requires 0 <= k < |team| =>
          if team[k].id == unitId then team[k].(equipment := SlotSet(team[k].equipment, slot, None)) else team[k])
  }

  /** unequipItem: refused for an unknown unit or an empty slot; otherwise the slot is emptied and the item returns to the pool. */
  function Unequip(g: GameData, unitId: string, slot: Slot): (r: Attempt)
    ensures r.outcome != Done ==> r.data == g
    ensures FindMember(g.team, unitId).None? <==> r.outcome == Failed(UnitNotFound)
    ensures r.outcome == Done <==>
              FindMember(g.team, unitId).Some? && SlotGet(FindMember(g.team, unitId).value.equipment, slot).Some?
              && SlotGet(FindMember(g.team, unitId).value.equipment, slot) != Some("")
    ensures r.outcome == Done ==> r.data == g.(team := UnequipAll(g.team, unitId, slot))
  {
    match FindMember(g.team, unitId)
    case None => Attempt(g, Failed(UnitNotFound))
    case Some(u) =>
      if SlotGet(u.equipment, slot).None? || SlotGet(u.equipment, slot) == Some("") then Attempt(g, Failed(SlotEmpty))
      else Attempt(g.(team := UnequipAll(g.team, unitId, slot)), Done)
  }

  /** Unequipping keeps every instance with at most one unit. */
  lemma UnequipKeepsExclusive(g: GameData, unitId: string, slot: Slot)
    requires ExclusiveEquipment(g.team)
    ensures ExclusiveEquipment(Unequip(g, unitId, slot).data.team)
  {
    var r := Unequip(g, unitId, slot);
    if r.outcome == Done {
      var team := r.data.team;
      forall i, j, s, t | 0 <= i < |team| && 0 <= j < |team| && i != j && SlotGet(team[i].equipment, s).Some?
        ensures SlotGet(team[i].equipment, s) != SlotGet(team[j].equipment, t)
      {
        assert SlotGet(team[i].equipment, s) == SlotGet(g.team[i].equipment, s);
        assert SlotGet(team[j].equipment, t) == SlotGet(g.team[j].equipment, t) || SlotGet(team[j].equipment, t).None?;
      }
    }
  }

  /** The unit found by id after equipping is the one found before, with the instance in the slot. */
  lemma {:induction false} FindEquipped(team: seq<SavedUnit>, unitId: string, slot: Slot, instanceId: string)
    requires FindMember(team, unitId).Some?
    ensures FindMember(EquipAll(team, unitId, slot, instanceId), unitId).Some?
    ensures SlotGet(FindMember(EquipAll(team, unitId, slot, instanceId), unitId).value.equipment, slot) == Some(instanceId)
  {
    if team[0].id != unitId {
      assert EquipAll(team, unitId, slot, instanceId)[1..] == EquipAll(team[1..], unitId, slot, instanceId);
      FindEquipped(team[1..], unitId, slot, instanceId);
    }
  }

  /** After equipping and then emptying the same slot, no unit of that id holds the instance. */
  lemma EquipThenClear(team: seq<SavedUnit>, unitId: string, slot: Slot, instanceId: string)
    ensures var after := UnequipAll(EquipAll(team, unitId, slot, instanceId), unitId, slot);
      forall k, s :: 0 <= k < |team| && team[k].id == unitId ==> SlotGet(after[k].equipment, s) != Some(instanceId)
  {
    var mid := EquipAll(team, unitId, slot, instanceId);
    var after := UnequipAll(mid, unitId, slot);
    forall k, s | 0 <= k < |team| && team[k].id == unitId
      ensures SlotGet(after[k].equipment, s) != Some(instanceId)
    {
      assert mid[k].equipment == EquipSlot(team[k].equipment, slot, instanceId);
      assert after[k].equipment == SlotSet(mid[k].equipment, slot, None);
    }
  }

  /** Equipping an instance and then emptying that slot succeeds and leaves the unit holding it nowhere. */
  lemma EquipThenUnequip(g: GameData, unitId: string, slot: Slot, instanceId: string, items: map<string, CraftableItem>)
    requires Equip(g, unitId, slot, instanceId, items).outcome == Done && instanceId != ""
    ensures var h := Equip(g, unitId, slot, instanceId, items).data;
      && Unequip(h, unitId, slot).outcome == Done
      && forall k, s :: 0 <= k < |g.team| && g.team[k].id == unitId ==>
           SlotGet(Unequip(h, unitId, slot).data.team[k].equipment, s) != Some(instanceId)
  {
    FindEquipped(g.team, unitId, slot, instanceId);
    EquipThenClear(g.team, unitId, slot, instanceId);
  }
}
