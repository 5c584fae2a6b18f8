# xcom-lite in Dafny

A model of the game logic of xcom-lite, a browser turn-based tactics game
in the style of X-COM, with proofs about that model. The game has two
layers:

- **Tactical combat** (`components/CombatView.tsx`). A 32 × 24 tile grid
  with random obstacles, the player's squad and an enemy force, playing in
  alternating turns. The model covers:
  - deploying both sides;
  - moving, attacking and the three abilities (steady aim, blitz and
    deadeye shot);
  - half cover;
  - the move and attack highlights;
  - the ten-entry message log;
  - the damage log;
  - the end of the player turn;
  - the automated turn, which the enemy always takes and the player takes
    when they delegate their squad to the AI. It runs each unit's
    breadth-first search for a tile, a target ordering and a preference
    among tiles;
  - the stop request that gives control back to the player;
  - the battle summary handed back when the battle ends.
- **Strategic layer** (`contexts/GameContext.tsx`). Supplies, alloy
  fragments, the research queue, the roster, crafting and equipment, and
  the debriefing after a mission: experience, promotions and rewards.

Around these sit more pieces:

- the resolution of a unit's effective stats from its template, its rank,
  completed research and equipped items (`utils/applyResearchEffects.ts`);
- the research tree screen: tiers, the node order, columns, connections,
  canvas size and the start/locked flags (`components/ResearchView.tsx`);
- the squad screen: the experience bar and the items offered for a slot
  (`components/TeamManagementView.tsx`);
- the end-of-battle dialog and its per-turn damage chart
  (`components/GameEndModal.tsx`).

## Modules

Each module is one file, listed with what it holds:

- `types.dfy` (`Types`): the game's records, such as units, tiles, effects,
  equipment, the combat state and damage-log entries.
- `constants.dfy` (`Constants`): the game's constants, such as templates,
  abilities, ranks, XP rewards and enemy compositions.
- `effects.dfy` (`EffectParser`): reading a stat bonus out of an effect
  text.
- `stats.dfy` (`UnitStats`): a unit's effective stats.
- `rules.dfy` (`Rules`): the grid, cover, the game-over verdict,
  highlights and the message log.
- `sorting.dfy` (`Sorting`): a stable sort by key, standing in for
  `Array.prototype.sort` with the source's comparators.
- `setup.dfy` (`Setup`): obstacles, player placement, enemy spawning and
  the initial state.
- `combat.dfy` (`Combat`): the manual handlers as pure updates of the
  combat state, and the invariant they keep.
- `ai.dfy` (`AutoTurn`): one unit's automated actions, meaning the search,
  the orderings, the shot and the step.
- `turn.dfy` (`Turn`): a whole automated turn, with its bookkeeping and
  hand-over.
- `engine.dfy` (`Engine`): the class `CombatEngine`. It holds the combat
  screen's mutable state: the combat state, the AI-processing flag, the
  stop request, the timer in flight and the deployment counts.
- `strategy.dfy` (`Strategy`): the operations of the game context.
- `research.dfy` (`ResearchTree`), `team.dfy` (`TeamView`) and `chart.dfy`
  (`DamageChart`): the three screens.

## How the model is built

- **Handlers and updaters.** Event handlers and React state updaters
  become pure functions from one state to the next. The loops of the
  source are methods with loop invariants, each proved equal to a
  specification function:
  - the stat and research loops;
  - the promotion loop;
  - the crafting cost loops;
  - the attack highlight loops;
  - the grid scan for spawn tiles and the in-place Fisher–Yates shuffle;
  - the breadth-first search and the per-unit action loop;
  - the memoised `getTier` and the grouping loop;
  - the chart accumulation.
- **Randomness** is an oracle `rand: nat -> nat` together with a draw
  counter. The k-th draw with n possible outcomes is `rand(k) % n`, so
  every outcome is reachable. Wherever randomness is used, the proofs hold
  for every oracle.
- **Timers.** The two delays of the automated turn become the engine's
  `timer` field. `Tick` fires whichever delay is in flight.
- **Identifiers the source generates**, from `Date.now()` and
  `Math.random()`, are parameters: the new unit id and the crafted
  instance id.

## Behaviour reproduced as written

The model follows the code in each of these places:

- **Player cooldowns never tick.** Cooldowns are only decremented for the
  side whose turn begins after the player acted
  (`components/CombatView.tsx:1163`). So a player unit's ability cooldown
  never runs down once it is set (`Turn.PlayerCooldownsNeverTick`).
- **Interrupting the enemy.** The stop request is only consulted for the
  player's side, so an enemy turn can never be interrupted.
- **The stop flag at 949 is not cleared.** After the player interrupts a
  delegated turn mid-way, the flag stays raised. The next automated player
  turn is therefore cancelled at its start.
- **Toggling twice while the AI runs.** Switching back to the AI during
  processing keeps an earlier stop request. The next automated player turn
  then undoes the delegation.
- **Placement bookkeeping resets per unit.** The list of positions already
  handed out is recreated for every unit, so it is always empty. Seven or
  more units share start slots six apart.
- **The secondary effect pattern is dead.** The unit-specific pattern in
  `parseEffectString` can never fire, because the general pattern already
  matches every string it matches (`EffectParser.SpecificPatternIsSubsumed`).
- **An unknown prerequisite still raises the tier.** A prerequisite id
  missing from the catalog counts as tier 0. A project that depends on one
  therefore sits in tier 1 or higher.

## Model

| member | source | states |
|---|---|---|
| Types.IndexOf | components/CombatView.tsx:957 | `findIndex` by id: the index returned holds the id and no earlier unit does; `None` exactly when no unit has the id |
| Types.UniqueIdsDistinct | components/CombatView.tsx:957 | unique ids (every id lookup finds its own index) is the same as pairwise distinct ids |
| Types.SlotSet | types.ts:108-115 | writing one equipment slot sets exactly that slot and leaves the other three as they were |
| Constants.RankIndex | components/TeamManagementView.tsx:163-166 | the rank lookup by name finds a rank of that name, or reports that no rank has it |
| Constants.RankIndexOfName | constants.ts:179-187 | rank names are distinct, so looking a rank's name up finds that rank |
| Constants.OnlyLastRankCapped | constants.ts:179-187 | only the top rank has no XP threshold, and every threshold is positive |
| Rules.SetOccupied | components/CombatView.tsx:1035 | marking one tile's occupancy changes that tile's flag only and keeps the grid well formed |
| Rules.BuildGrid | components/CombatView.tsx:157-173 | the initial grid has exactly the obstacles unwalkable, exactly the live units' tiles occupied and no highlight |
| Rules.BuildGridConsistent | components/CombatView.tsx:157-173 | no obstacle tile is walkable and every live unit's tile is occupied |
| Rules.CoverBenefit | components/CombatView.tsx:874-903 | cover grants either nothing or the half-cover reduction of 10 |
| Rules.CoverBenefitCovered | components/CombatView.tsx:874-903 | the target has half cover exactly when some neighbouring obstacle lies between it and the attacker on that axis |
| Rules.CoverIgnoresOtherAxis | components/CombatView.tsx:874-903 | with no obstacle north or south of the target, moving the attacker along the y axis never changes the cover |
| Rules.CountAliveZero | components/CombatView.tsx:382-396 | a side's living count is zero exactly when none of its units is alive |
| Rules.GameOverStatusMeaning | components/CombatView.tsx:382-396 | a decided battle stays decided; otherwise it is lost exactly when no player unit lives and won exactly when player units live and no enemy does |
| Rules.FirstBlitz | components/CombatView.tsx:1536 | the blitz effect found is an active blitz of the unit; none is found only when the unit has none |
| Rules.MoveHighlightGrid | components/CombatView.tsx:1532-1547 | exactly the tiles the unit may move to get the move highlight, and every other tile loses its highlight |
| Rules.MoveHighlightExact | components/CombatView.tsx:1532-1547 | a tile is highlighted for movement iff it lies within the (blitz-boosted) move speed, is walkable, not an obstacle and free; the unit's own tile never is |
| Rules.MarkTargets | components/CombatView.tsx:1549-1584 | exactly the units the attacker may fire at become targetable; nothing else about any unit changes |
| Rules.WithoutHighlights | components/CombatView.tsx:374-380 | clearing highlights removes every tile's highlight and changes nothing else |
| Rules.AttackHighlightGrid | components/CombatView.tsx:1549-1584 | every non-obstacle tile within range gets the attack or ability highlight and every other highlight is cleared |
| Rules.AttackHighlights | components/CombatView.tsx:1549-1584 | the nested loops over the grid and the unit map produce exactly the attack highlight grid and the targetable units |
| Rules.AddMessage | components/CombatView.tsx:367-372 | the log gains the message last and keeps at most the ten most recent entries, in order |
| Rules.Trim | components/CombatView.tsx:1176 | `.slice(-10)` keeps the last ten entries in order |
| Rules.NoneTargetable | components/CombatView.tsx:374-380 | every unit loses its targetable mark and nothing else changes |
| Sorting.KeyLeTransitive | components/CombatView.tsx:1096-1101 | the lexicographic comparison of sort keys is transitive |
| Sorting.Insert | components/CombatView.tsx:1096-1101 | inserting places the element once more among the others |
| Sorting.InsertSorted | components/CombatView.tsx:1096-1101 | inserting into a sorted list keeps it sorted |
| Sorting.SortByKey | components/CombatView.tsx:1096-1101 | the sort is a permutation of its input |
| Sorting.SortByKeySorted | components/CombatView.tsx:1096-1101 | the sort's result is ordered by key |
| Sorting.SortedHeadIsLeast | components/CombatView.tsx:1102 | the head of a non-empty sorted list is an input element with the least key |
| Sorting.FirstLeast | components/CombatView.tsx:1102 | the index found has the least key and every earlier element a strictly greater key |
| Sorting.SortedHeadIsFirstLeast | components/CombatView.tsx:1102 | the sort is stable: its head is the earliest element with the least key |
| EffectParser.KeywordAt | utils/applyResearchEffects.ts:10-23 | the stat alternation matches at a position exactly when the keyword returned occurs there |
| EffectParser.ParseEffectString | utils/applyResearchEffects.ts:8-56 | the parse gives nothing exactly when no tail of the pattern matches anywhere, and otherwise the match that starts leftmost |
| EffectParser.SkipSpaces | utils/applyResearchEffects.ts:10-23 | a greedy `\s*` stops at the first non-space |
| EffectParser.DigitsEnd | utils/applyResearchEffects.ts:10-23 | a greedy `\d+` stops at the first non-digit |
| EffectParser.ParseFromSkips | utils/applyResearchEffects.ts:8-56 | positions without a match never change the parse result |
| EffectParser.LeftmostMatch | utils/applyResearchEffects.ts:8-56 | the parse returns exactly the leftmost match |
| EffectParser.NoMatchNoBonus | utils/applyResearchEffects.ts:8-56 | a text with no match gives no bonus |
| EffectParser.AnyMatchGivesBonus | utils/applyResearchEffects.ts:8-56 | a text with a match anywhere always gives a bonus |
| EffectParser.NotKeywordStart | utils/applyResearchEffects.ts:10-23 | no match starts at a character that begins none of the five keywords |
| EffectParser.NoKeywordInPrefix | utils/applyResearchEffects.ts:10-23 | no keyword starts inside the optional "all units'" prefix or the spaces after it |
| EffectParser.PrefixIsTransparent | utils/applyResearchEffects.ts:10-23 | the regex with its optional prefix captures the same stat and value as the plain leftmost keyword match |
| EffectParser.RegexAgreesWithParser | utils/applyResearchEffects.ts:10-23 | the regex search from the start equals the parser's result |
| EffectParser.SpecificPatternIsSubsumed | utils/applyResearchEffects.ts:26-52 | whatever the unit-specific pattern matches, the general one already matched, so that branch is dead |
| EffectParser.ParsesAllUnitsMaxHealth | utils/applyResearchEffects.ts:8-56 | the basic armour text reads as max health +10 |
| EffectParser.PenaltyIsIgnored | utils/applyResearchEffects.ts:10-23 | a minus sign is not a bonus |
| EffectParser.AccuracyIsIgnored | utils/applyResearchEffects.ts:10-23 | a stat outside the five is ignored |
| UnitStats.Bump | utils/applyResearchEffects.ts:116-132 | adding a bonus raises exactly its stat, and raising a maximum raises the current value with it |
| UnitStats.ApplyModsTotals | utils/applyResearchEffects.ts:103-159 | applying a list of bonuses raises each stat by the total of its bonuses and keeps health and AP at the same distance from their maxima |
| UnitStats.ApplyModsAppend | utils/applyResearchEffects.ts:103-159 | applying two lists of bonuses is applying one after the other |
| UnitStats.ModsTotalAppend | utils/applyResearchEffects.ts:103-159 | bonus totals add up over concatenation |
| UnitStats.ModsNonNegative | utils/applyResearchEffects.ts:10-23 | parsed bonuses are never negative, so no stat is ever lowered |
| UnitStats.BonusMods | utils/applyResearchEffects.ts:103-114 | a rank's stat bonuses become one bonus each, in order |
| UnitStats.FindInstance | utils/applyResearchEffects.ts:134-159 | the inventory lookup finds an item of that instance id, or reports there is none |
| UnitStats.FreshAbilities | utils/applyResearchEffects.ts:161-163 | each base ability starts with no cooldown |
| UnitStats.EffectiveStatsOf | utils/applyResearchEffects.ts:59-166 | each stat is the template's plus the total of the rank, research and equipment bonuses; an unknown template gives the rookie's stats; identity, rank and equipment are kept, no effects or kills |
| UnitStats.StartsAtFullStrength | utils/applyResearchEffects.ts:161-163 | current health and action points start at their maxima |
| UnitStats.BonusSources | utils/applyResearchEffects.ts:103-159 | every stat bonus splits into its rank, research and equipment parts |
| UnitStats.MissingItemContributesNothing | utils/applyResearchEffects.ts:134-159 | a slot whose instance or item definition is missing adds nothing |
| UnitStats.UnknownResearchIgnored | utils/applyResearchEffects.ts:116-132 | a completed id outside the catalog adds nothing |
| UnitStats.CalculateEffectiveUnitStats | utils/applyResearchEffects.ts:59-166 | the source's `+=` loops give exactly the effective stats |
| UnitStats.ApplyRankBonuses | utils/applyResearchEffects.ts:103-114 | the rank loop applies exactly the rank's bonuses |
| UnitStats.ApplyResearch | utils/applyResearchEffects.ts:116-132 | the research loop applies exactly the bonuses parsed from completed projects |
| UnitStats.ApplyEquipment | utils/applyResearchEffects.ts:134-159 | the slot loop applies exactly the bonuses parsed from the equipped items |
| UnitStats.ApplyTexts | utils/applyResearchEffects.ts:116-132 | the loop over effect texts applies exactly the bonuses parsed from them |
| Setup.GenerateObstacles | components/CombatView.tsx:52-77 | at most 51 obstacles, all on the board, all outside both safe zones and all distinct |
| Setup.PlacePlayer | components/CombatView.tsx:110-139 | a unit lands on the board in the deployment rows; on its start slot when that is free; otherwise on a free tile or the fallback tile |
| Setup.GeneratedObstaclesSpareStarts | components/CombatView.tsx:52-77 | generated obstacles never block a start slot |
| Setup.PlayerUnitsForCombat | components/CombatView.tsx:80-154 | one unit per saved unit with its id, name and effective stats, or the emergency rookie for an empty roster; all in the deployment rows and, with generated obstacles, on their start slots |
| Setup.DeployPlayer | components/CombatView.tsx:110-153 | a saved unit becomes a combat unit with its effective stats, placed in the deployment rows |
| Setup.ValidSpawnTiles | components/CombatView.tsx:189-196 | the scan lists exactly the obstacle-free tiles of the enemy rows, each once, in scan order |
| Setup.Shuffle | components/CombatView.tsx:198-201 | the in-place shuffle permutes the spawn list |
| Setup.PermutationKeepsDistinct | components/CombatView.tsx:198-201 | a permutation of a list without repeats has none |
| Setup.NatToStringInjective | components/CombatView.tsx:233 | distinct counters print differently |
| Setup.EnemyIdsDistinct | components/CombatView.tsx:233 | enemy ids with different counters differ |
| Setup.Requested | components/CombatView.tsx:203-210 | only templates that exist are spawned |
| Setup.SpawnEnemies | components/CombatView.tsx:203-248 | the i-th enemy is the i-th requested template numbered i + 1 on the i-th tile popped from the end; spawning stops when tiles run out |
| Setup.SpawnForMission | components/CombatView.tsx:184-248 | as many enemies as tiles and requests allow, each on a spawn tile, on pairwise different tiles with pairwise different ids |
| Setup.SetupIdsUnique | components/CombatView.tsx:250 | the roster's ids and the enemy ids together are unique |
| Setup.SpawnTilesUnique | components/CombatView.tsx:189-196 | the scan's result is the only list of the spawn tiles in scan order |
| Setup.CreateInitialCombatState | components/CombatView.tsx:175-264 | players then enemies, the grid built from them, player turn 1 with the opening message, nothing selected or pending, all ids unique |
| Combat.SelectedIndex | components/CombatView.tsx:1216 | the selected unit's index holds the selected id |
| Combat.Selected | components/CombatView.tsx:1216 | the selected unit is a listed unit with the selected id |
| Combat.FirstSteadyAim | components/CombatView.tsx:1275 | the aim found is an unspent steady aim of the unit; none is found only when there is none |
| Combat.FirstBlitzEffect | components/CombatView.tsx:1227 | the blitz found is an active blitz; none is found only when there is none |
| Combat.WithoutActiveBlitz | components/CombatView.tsx:1244 | moving drops every active blitz and keeps only effects the unit had |
| Combat.WithoutActiveBlitzKeeps | components/CombatView.tsx:1244 | every effect that is not an active blitz survives the move |
| Combat.AfterAttack | components/CombatView.tsx:1306-1308 | after a manual attack no spent one-shot effect and no active steady aim remain |
| Combat.AfterAttackKeeps | components/CombatView.tsx:1306-1308 | every other usable effect is kept, and a lasting steady aim is kept as spent |
| Combat.MarkFree | components/CombatView.tsx:1334-1339 | freeing a tile changes only its occupancy; nothing changes for a position off the board |
| Combat.MoveGrid | components/CombatView.tsx:1248-1253 | after a move the new tile is occupied, the old one free and every highlight cleared |
| Combat.RemoveDestroyedMembers | components/CombatView.tsx:1342 | the filter keeps exactly the units other than the destroyed target |
| Combat.RemoveDestroyedUnique | components/CombatView.tsx:1342 | filtering keeps ids unique |
| Combat.GameOverIgnoresDestroyed | components/CombatView.tsx:1345 | the verdict is the same whether or not the destroyed target is still listed |
| Combat.MovedUnits | components/CombatView.tsx:1238-1247 | the mover takes the tile, pays one point, is marked as moved and spends its blitz; every other unit is unchanged |
| Combat.MoveOutcome | components/CombatView.tsx:1221-1263 | a committed move changes the mover as above and only untargets the others; new tile occupied, old tile free, other tiles only lose highlights; nothing pending |
| Combat.ManualDamage | components/CombatView.tsx:1273-1282 | damage is the attack plus any steady aim bonus less cover, and never negative |
| Combat.StruckUnitsAt | components/CombatView.tsx:1300-1313 | the units after a shot are each unit's own update |
| Combat.StruckUnitsFacts | components/CombatView.tsx:1294-1313 | a shot changes the shooter's points and kills, the target's health, and no other unit |
| Combat.Resolve | components/CombatView.tsx:1315-1361 | a destroyed target frees its tile and leaves the list, the verdict and messages are recorded, highlights are cleared and nothing stays pending |
| Combat.CommitAttack | components/CombatView.tsx:1268-1364 | the manual attack deals the manual damage with the attack's bookkeeping: one point spent, a kill credited, the damage logged |
| Combat.Shoot | components/CombatView.tsx:1293-1364 | the shooter and target change as the hit says and all unit invariants are kept |
| Combat.SettledFind | components/CombatView.tsx:1335-1345 | after a hit resolves, the destroyed target is gone and every other unit is found as it was, untargeted |
| Combat.SettledAlive | components/CombatView.tsx:1335-1350 | resolving never changes which sides have living units |
| Combat.HitLookup | components/CombatView.tsx:1335-1345 | after a hit each unit is found exactly as the hit left it, and the list shrinks by one exactly when the target died |
| Combat.RemovedOne | components/CombatView.tsx:1342 | removing the destroyed unit shortens the list by exactly one |
| Combat.DeadeyeDamage | components/CombatView.tsx:1382-1387 | deadeye damage is never negative |
| Combat.DeadeyeRoundsHalfUp | components/CombatView.tsx:1382-1387 | the damage is the base plus its percentage bonus less cover, rounded half up, and 0 when that is not positive |
| Combat.DeadeyeOneAndAHalf | components/CombatView.tsx:1382-1387 | with the 50% modifier and no cover, an even base deals one and a half times the base |
| Combat.SetCooldown | components/CombatView.tsx:1410 | exactly the ability's cooldown entries are set and the others kept |
| Combat.CommitDeadeye | components/CombatView.tsx:1377-1443 | the deadeye shot deals the deadeye damage, pays the ability cost, starts its cooldown and resolves like an attack |
| Combat.Cancel | components/CombatView.tsx:1480-1488 | cancelling logs the message, clears every highlight and targeting mark and leaves nothing pending, and changes nothing else; it keeps the combat invariant |
| Combat.Refuse | components/CombatView.tsx:1265 | a refusal only appends its message to the log, and keeps the combat invariant |
| Combat.ClickSelect | components/CombatView.tsx:1447-1468 | clicking a living player unit in the player's turn selects it; any other unit only explains; either way a pending action is cancelled and the invariant kept |
| Combat.HandleClick | components/CombatView.tsx:1205-1491 | a click never changes whose turn it is or the turn number; a tile clicked with no move pending, or the background with nothing pending, changes nothing; an obstacle or background click leaves nothing pending (each kind of hit is stated in full by TileClickMoves, UnitClickAttacks, UnitClickUsesAbility and UnitClickSelects) |
| Combat.TileClickMoves | components/CombatView.tsx:1221-1267 | with a move pending, the move is committed exactly when the tile is move-highlighted, walkable, obstacle-free and within the move speed, the unit then standing there one action point poorer; otherwise only the refusal is logged and the move stays pending |
| Combat.UnitClickAttacks | components/CombatView.tsx:1268-1371 | with an attack pending, the attack is fired exactly at a targetable unit of the other side, with the manual damage; a friendly unit or any other unit only logs why, and the attack stays pending |
| Combat.UnitClickUsesAbility | components/CombatView.tsx:1372-1446 | with an ability pending, a known ability on a targetable unit fires only as deadeye shot on an enemy, other such abilities changing nothing; otherwise only the refusal is logged |
| Combat.UnitClickSelects | components/CombatView.tsx:1447-1468 | with nothing to aim, a living player unit is selected in the player's turn, other units keep the selection, an unknown id changes nothing, and a pending move is cancelled |
| Combat.ClickKeepsUnits | components/CombatView.tsx:1205-1491 | a click that commits nothing leaves units and grid as they were up to targeting and highlights, and never changes the damage log or verdict |
| Combat.CancelClicksClearPending | components/CombatView.tsx:1469-1488 | clicking an obstacle or the background always leaves nothing pending and clears highlights |
| Combat.ShotKeepsUnitsOk | components/CombatView.tsx:1293-1364 | a shot the shooter can pay for leaves every unit on the board and within its bounds, ids unique |
| Combat.MoveKeepsStateOk | components/CombatView.tsx:1221-1263 | a committed move keeps the combat invariant |
| Combat.AttackKeepsStateOk | components/CombatView.tsx:1268-1364 | a committed attack keeps the combat invariant |
| Combat.DeadeyeKeepsStateOk | components/CombatView.tsx:1372-1443 | a deadeye shot keeps the combat invariant |
| Combat.ClickKeepsStateOk | components/CombatView.tsx:1205-1491 | every click keeps the combat invariant: unique ids, units on the board and within bounds, a well-formed grid, a bounded log, a known pending ability |
| Combat.Skipped | components/CombatView.tsx:1624-1632 | skipping empties exactly the selected unit's action points and untargets every unit |
| Combat.ArmedOk | components/CombatView.tsx:1601-1623 | arming an action the unit can pay for keeps the invariant |
| Combat.ActionKeepsStateOk | components/CombatView.tsx:1587-1633 | every outcome of an action button keeps the combat invariant |
| Combat.ActionResult | components/CombatView.tsx:1587-1633 | an action button never changes the selection, the turn, the verdict, the damage log or the number of units; a refused action keeps what was pending; choosing move or attack arms it unless it is already pending, when it is disarmed; skipping leaves nothing pending |
| Combat.ArmMove | components/CombatView.tsx:1606-1612 | arming a move keeps the invariant |
| Combat.ArmAttack | components/CombatView.tsx:1618-1623 | arming an attack keeps the invariant |
| Combat.Skip | components/CombatView.tsx:1624-1632 | skipping keeps the invariant |
| Combat.HandleAction | components/CombatView.tsx:1587-1633 | the handler with its highlight loops gives exactly the specified action outcome |
| Combat.RefusedActionOnlyLogs | components/CombatView.tsx:1588-1599 | a refused action only logs its reason, and is refused only with no acting unit or no points left for a move or attack |
| Combat.ReChoosingDisarms | components/CombatView.tsx:1601-1623 | choosing the pending action again disarms it and clears all highlights |
| Combat.ChoosingArms | components/CombatView.tsx:1606-1623 | choosing a move highlights exactly the reachable free tiles; choosing an attack makes exactly the units in range targetable |
| Combat.SkipSpendsAll | components/CombatView.tsx:1624-1632 | skipping leaves the selected unit without points and every other unit's points as they were |
| Combat.FindStatus | components/CombatView.tsx:1648 | the status entry found is the ability's own, or there is none |
| Combat.GrantedEffects | components/CombatView.tsx:1679-1703 | a self ability grants fresh, active effects tagged with the ability |
| Combat.UseMessages | components/CombatView.tsx:1679-1703 | one message per granted effect |
| Combat.AbilityCostsNonNegative | constants.ts:51-99 | every ability costs a non-negative number of points |
| Combat.UseSelfAbility | components/CombatView.tsx:1669-1717 | using a self ability keeps the invariant |
| Combat.ArmAbility | components/CombatView.tsx:1718-1727 | arming a targeted ability keeps the invariant |
| Combat.RequestAbility | components/CombatView.tsx:1635-1728 | the handler with its highlight loops gives exactly the specified ability outcome |
| Combat.AbilityKeepsStateOk | components/CombatView.tsx:1635-1728 | every ability request keeps the combat invariant |
| Combat.AbilityResult | components/CombatView.tsx:1635-1728 | an ability request never changes the selection, the turn, the verdict, the damage log or the number of units; a refused request keeps what was pending; an ability aimed at an enemy is armed unless it is already pending, when it is disarmed; a self ability or an unsupported target leaves nothing pending |
| Combat.RefusedAbilityOnlyLogs | components/CombatView.tsx:1640-1656 | a refused request only logs; it is refused for want of points, a running cooldown or a prior move |
| Combat.ReRequestingDisarms | components/CombatView.tsx:1660-1665 | requesting the pending ability again disarms it |
| Combat.SelfAbilityPays | components/CombatView.tsx:1669-1717 | a self ability costs the selected unit exactly its points, starts its full cooldown and adds its effects; the other units only lose targeting |
| Combat.UsedAbilityCoolsDown | components/CombatView.tsx:1648-1652 | once used, an ability with a cooldown refuses a second request |
| Combat.SteadyAimArmsNextAttack | components/CombatView.tsx:1275-1278 | steady aim adds 10 damage to the next attack |
| Combat.BlitzAddsTwoTiles | components/CombatView.tsx:1227-1229 | blitz adds two tiles to the move speed, for the highlight and the click alike |
| Combat.EndTurnEffects | components/CombatView.tsx:1512-1520 | after the player turn no effect is active, and exactly the lasting effects survive, deactivated |
| Combat.EndTurnUnits | components/CombatView.tsx:1506-1525 | every unit is updated by the end-of-turn rule |
| Combat.EndTurn | components/CombatView.tsx:1493-1530 | the enemy turn starts under the same turn number, nothing selected or pending, each unit reset, and two messages logged |
| Combat.EndTurnKeepsStateOk | components/CombatView.tsx:1493-1530 | ending the turn keeps the invariant; the log may then hold eleven entries |
| Combat.ToggleDelegate | components/CombatView.tsx:1776-1801 | the delegation flag flips, selection and pending action are dropped, highlights cleared and the matching message logged |
| Combat.ToggleTwice | components/CombatView.tsx:1776-1801 | toggling twice restores the flag and loses only targeting and highlights |
| Combat.ToggleKeepsStateOk | components/CombatView.tsx:1776-1801 | the toggle keeps the invariant |
| Combat.Survivors | components/CombatView.tsx:1751-1764 | the survivors are exactly the living player units, one record each |
| Combat.BattleSummary | components/CombatView.tsx:1751-1767 | the summary gives the verdict, the survivors, the units lost and the enemies defeated against the deployment counts |
| AutoTurn.OrderingPermutes | components/CombatView.tsx:1058-1061 | every ordering of the neighbours is a permutation |
| AutoTurn.ShuffledPermutes | components/CombatView.tsx:1058-1061 | the shuffled neighbours are the four listed ones, each once |
| AutoTurn.WalkStaysNear | components/CombatView.tsx:1055-1093 | a walk never ends further from its start than its length |
| AutoTurn.CoveredTile | components/CombatView.tsx:1074-1084 | a tile counts as covered exactly when an obstacle neighbours it |
| AutoTurn.Consider | components/CombatView.tsx:1063-1091 | one neighbour is marked visited, offered and queued exactly when it is passable, new and within the move speed |
| AutoTurn.Expand | components/CombatView.tsx:1056-1092 | expanding a tile keeps the search invariant |
| AutoTurn.FindMoves | components/CombatView.tsx:1050-1093 | every candidate is reached by a walk of passable tiles within the move speed, with its true distance, length and cover; no tile is offered twice |
| AutoTurn.BestMove | components/CombatView.tsx:1095-1102 | the chosen candidate has the least key, and every earlier one a strictly greater key |
| AutoTurn.BestMoveIsSortedHead | components/CombatView.tsx:1095-1102 | the sort followed by `[0]` picks that candidate |
| AutoTurn.BestMovePreferred | components/CombatView.tsx:1096-1101 | a covered tile if any; among equally covered ones the nearest to the target; then the shortest walk |
| AutoTurn.Opponents | components/CombatView.tsx:960 | the targets are exactly the living units of the other side |
| AutoTurn.TargetOrderMembers | components/CombatView.tsx:963-974 | the ordering keeps exactly the given targets |
| AutoTurn.TargetPriority | components/CombatView.tsx:963-974 | earlier targets are out of cover if later ones are; equally covered, killable if later ones are; otherwise no healthier |
| AutoTurn.FirstInReach | components/CombatView.tsx:984-991 | the target chosen is the first one in range, and none before it is |
| AutoTurn.TurnEvolvedLookups | components/CombatView.tsx:1012-1019 | during a turn ids stay in place, so lookups and unique ids carry over |
| AutoTurn.WithoutId | components/CombatView.tsx:1036 | the destroyed target leaves the target list and every other target stays |
| AutoTurn.AiDamage | components/CombatView.tsx:995-997 | the automated attack deals the attack less cover, never below zero, with no steady aim |
| AutoTurn.Damaged | components/CombatView.tsx:1015 | health after damage is clamped at 0 |
| AutoTurn.StrikeFacts | components/CombatView.tsx:1012-1028 | a shot costs the shooter one point, credits a kill of an enemy, lowers the target's health and changes no other unit of the side |
| AutoTurn.StepFacts | components/CombatView.tsx:1109-1112 | a step puts the unit on the tile for one point and changes no other unit |
| AutoTurn.Shoot | components/CombatView.tsx:992-1037 | the shot strikes the first target in range for the automated damage; a destroyed target frees its tile and leaves the target list |
| AutoTurn.Step | components/CombatView.tsx:1047-1119 | the step searches towards the first target and, if any tile was found, moves the unit to the best one for one point |
| AutoTurn.UnitTurn | components/CombatView.tsx:976-1128 | a unit's actions cost exactly the points spent, leave the side's other units alone, keep the terrain, and never leave two units on one tile |
| Turn.Actors | components/CombatView.tsx:945 | the snapshot holds exactly the living units of the side with points left |
| Turn.Living | components/CombatView.tsx:1132 | the survivors are exactly the units with health left |
| Turn.LivingUnique | components/CombatView.tsx:1132 | dropping the dead keeps ids unique |
| Turn.LivingSameOutcome | components/CombatView.tsx:1132-1133 | dropping the dead never changes the verdict |
| Turn.Countdown | components/CombatView.tsx:1162 | effects with more than one turn left lose a turn, the others end |
| Turn.Tick | components/CombatView.tsx:1164 | every cooldown comes one turn closer to zero |
| Turn.HandsOver | components/CombatView.tsx:1143-1166 | an uninterrupted turn that does not decide the battle hands the turn over, raises the turn number when the player is next, and refreshes the next side's units |
| Turn.HaltKeepsTurn | components/CombatView.tsx:1138-1176 | an interrupted turn keeps the turn, its number and every unit, and ends the delegation |
| Turn.VerdictKeepsTurn | components/CombatView.tsx:1141-1176 | a deciding turn keeps the turn and announces the verdict that fits who is alive |
| Turn.PlayerCooldownsNeverTick | components/CombatView.tsx:1163-1165 | as written, a player unit's cooldowns never tick at a hand-over, while an enemy's tick after each player turn |
| Turn.BookkeepOk | components/CombatView.tsx:1132-1180 | the committed state satisfies the combat invariant |
| Turn.Bookkeep | components/CombatView.tsx:1132-1180 | the committed state selects nothing and has nothing pending, takes the working grid, appends the turn's damage entries, keeps the log bounded and judges the verdict on the working units; an interrupted turn keeps every unit and the turn and ends delegation; otherwise only living, untargeted units remain; the turn passes only to the other side, only when uninterrupted and undecided |
| Turn.ActorFound | components/CombatView.tsx:957 | the actor looked up by id is the snapshot's unit |
| Turn.ActorTurn | components/CombatView.tsx:949-1129 | one actor's turn keeps the invariant and the other waiting units of its side |
| Turn.RunActors | components/CombatView.tsx:948-1130 | the loop over the snapshot keeps the invariant; an interruption happens only in a player turn at the stop point, with the later actors untouched |
| Turn.PlayTurn | components/CombatView.tsx:925-1180 | the automated turn keeps the invariant and delivers the turn outcome: hand-over, verdict or interruption, with the damage log extended |
| Turn.Committed | components/CombatView.tsx:1132-1180 | the bookkeeping after the loop delivers the turn outcome |
| Engine.SideCount | components/CombatView.tsx:313-314 | a side's deployment count is zero exactly when it has no unit, and the whole roster exactly when every unit is its own |
| Engine.SideCountsAddUp | components/CombatView.tsx:313-314 | the three side counts add up to the roster |
| Engine.AliveWithinDeployed | components/CombatView.tsx:1766-1767 | the living count never exceeds the deployment count, so losses are never negative |
| Engine.CombatEngine.constructor | components/CombatView.tsx:326-346 | mounting with a fresh combat state: nothing runs and each side's deployment is counted |
| Engine.CombatEngine.Click | components/CombatView.tsx:1205-1491 | a click is ignored while input is blocked, and otherwise updates the state exactly as the click rule says |
| Engine.CombatEngine.Act | components/CombatView.tsx:1587-1633 | an action button is ignored while input is blocked, and otherwise applies the action rule |
| Engine.CombatEngine.UseAbility | components/CombatView.tsx:1635-1728 | an ability button is ignored while input is blocked, and otherwise applies the ability rule |
| Engine.CombatEngine.Begin | components/CombatView.tsx:906-922 | a pending stop request ends the player's delegation before anything runs; otherwise the AI starts processing, announces it, and the turn is due |
| Engine.CombatEngine.EndTurnPressed | components/CombatView.tsx:1493-1530 | unless guarded, the player turn ends and the enemy's automated turn begins |
| Engine.CombatEngine.ToggleDelegatePressed | components/CombatView.tsx:1776-1801 | the toggle acts only in the player's running turn: switching back while the AI runs raises the stop request; switching to the AI while idle starts it |
| Engine.CombatEngine.Play | components/CombatView.tsx:924-1199 | the delayed turn: a finished game stops processing; a stop request hands control back; otherwise the turn outcome, then the enemy is scheduled, the delegated player is scheduled or stopped, or processing ends |
| Engine.CombatEngine.Tick | components/CombatView.tsx:1184-1191 | the timer in flight fires, and a due turn of a finished game only stops processing |
| Engine.CombatEngine.Summary | components/CombatView.tsx:1730-1774 | the battle result against the deployment counts |
| Strategy.CumulativeXpIncreasing | contexts/GameContext.tsx:144-147 | higher ranks need strictly more total experience |
| Strategy.PromotedIndex | contexts/GameContext.tsx:149-158 | promotion never leaves the rank table and never goes below the start |
| Strategy.PromotionStops | contexts/GameContext.tsx:149-158 | where promotion stops, no further promotion is possible |
| Strategy.PromotionEarned | contexts/GameContext.tsx:149-158 | every rank gained was earned by reaching its threshold |
| Strategy.PromotionMonotone | contexts/GameContext.tsx:149-158 | more experience never gives a lower rank |
| Strategy.RankForXp | contexts/GameContext.tsx:149-158 | the highest rank whose threshold the experience reaches |
| Strategy.PromotionByThreshold | contexts/GameContext.tsx:137-158 | the promoted rank is the higher of the start rank and the rank the experience reaches |
| Strategy.StartIndex | contexts/GameContext.tsx:137-142 | an unknown rank counts as the lowest |
| Strategy.XpGained | contexts/GameContext.tsx:125-129 | a survivor earns the victory reward plus the kill reward, and nothing after a defeat |
| Strategy.Promotion | contexts/GameContext.tsx:131-176 | a survivor's experience is raised, its rank promoted as far as it reaches, and a promotion recorded exactly when the rank rose |
| Strategy.PromotionNeverDemotes | contexts/GameContext.tsx:137-158 | the rank after debriefing is a known rank, never below the start rank |
| Strategy.PriorRanksXp | contexts/GameContext.tsx:144-147 | the loop sums exactly the steps of the lower ranks |
| Strategy.ClimbRanks | contexts/GameContext.tsx:149-158 | the source's while loop stops at the promoted rank |
| Strategy.PromoteUnit | contexts/GameContext.tsx:121-177 | the per-unit body gives exactly the promotion |
| Strategy.FindSurvivor | contexts/GameContext.tsx:123 | the survivor record of that id, or there is none |
| Strategy.Surviving | contexts/GameContext.tsx:119-120 | exactly the roster entries among the survivors |
| Strategy.DebriefedAreSurvivors | contexts/GameContext.tsx:117-177 | the debriefed roster is the surviving entries in roster order, each debriefed |
| Strategy.MarkCompleted | contexts/GameContext.tsx:186-187 | the completed mission gets its outcome status and the others are unchanged |
| Strategy.Without | contexts/GameContext.tsx:186-188 | exactly the missions of other ids |
| Strategy.CompletedMissionRemoved | contexts/GameContext.tsx:186-188 | marking and filtering removes exactly the completed mission |
| Strategy.CompletionKeepsSurvivors | contexts/GameContext.tsx:117-177 | completing a mission shrinks the roster to the survivors in order, each with its experience and new rank |
| Strategy.CompletedMission | contexts/GameContext.tsx:104-210 | completing a mission keeps research, inventory and the research notice; records the mission, verdict and both counts as the last outcome; pays nothing unless victorious, and never lowers supplies or alloy for non-negative rewards (the roster and missions are stated by CompletionKeepsSurvivors and CompletionUpdatesCampaign) |
| Strategy.ReturnedUnit | contexts/GameContext.tsx:171-176 | a returning unit keeps its identity and equipment and gains the mission's experience and rank |
| Strategy.CompletionUpdatesCampaign | contexts/GameContext.tsx:179-205 | the mission leaves the list; rewards ×1.3 (floored) only on victory and alloy only when set; research and inventory untouched; the outcome is recorded |
| Strategy.DebriefRoster | contexts/GameContext.tsx:117-177 | the roster loop gives exactly the debriefed units and progress records |
| Strategy.CompleteMission | contexts/GameContext.tsx:104-210 | completeMissionCombat gives exactly the completed campaign state |
| Strategy.ClearLastOutcome | contexts/GameContext.tsx:212-217 | the debriefing is dismissed and nothing else changes |
| Strategy.DismissedDebriefKeepsCampaign | contexts/GameContext.tsx:212-217 | dismissing the debriefing keeps the mission list and roster the mission left |
| Strategy.StartResearch | contexts/GameContext.tsx:220-245 | a start succeeds exactly when the project exists, none runs, supplies cover the cost and the prerequisites are done; failures change nothing; success pays and starts at progress 0 |
| Strategy.Dedup | contexts/GameContext.tsx:265 | the first occurrence of each id, with the same members and no repeats |
| Strategy.DedupDistinct | contexts/GameContext.tsx:265 | a list without repeats is left as it is |
| Strategy.AdvanceResearch | contexts/GameContext.tsx:247-280 | one step of progress; at the duration the project is completed once and nothing runs; resources and roster unchanged |
| Strategy.ResearchRunsItsDuration | contexts/GameContext.tsx:220-280 | a started project is running with progress n after n advances and completed after exactly its duration, paid once |
| Strategy.AcknowledgeResearch | contexts/GameContext.tsx:282-287 | the completion notice is dismissed and nothing else changes |
| Strategy.AcknowledgedCompletionKept | contexts/GameContext.tsx:282-287 | the acknowledged project stays completed and nothing runs |
| Strategy.FindMember | contexts/GameContext.tsx:319 | the roster member of that id, or there is none |
| Strategy.Recruit | contexts/GameContext.tsx:289-316 | refused below 25 supplies; otherwise the cost is paid and a fresh lowest-rank unit joins the end of the roster |
| Strategy.WithoutMember | contexts/GameContext.tsx:326 | exactly the members of other ids |
| Strategy.Dismiss | contexts/GameContext.tsx:318-330 | refused for an unknown id; otherwise every unit of that id leaves |
| Strategy.RecruitThenDismiss | contexts/GameContext.tsx:289-330 | dismissing a fresh recruit gives back the roster, not the supplies |
| Strategy.Rename | contexts/GameContext.tsx:332-344 | refused for an unknown id; otherwise exactly the units of that id take the name |
| Strategy.RenameIdempotent | contexts/GameContext.tsx:332-344 | renaming twice is renaming once |
| Strategy.FirstShortfall | contexts/GameContext.tsx:359-368 | the check fails exactly when some cost entry is not covered |
| Strategy.SpentCovered | contexts/GameContext.tsx:374-377 | with each resource listed once, what is spent of one is covered |
| Strategy.Crafted | contexts/GameContext.tsx:346-393 | crafting succeeds exactly for a known item, unlocked, with every cost covered; it deducts the costs and adds exactly one instance |
| Strategy.CraftingNeverOverdraws | contexts/GameContext.tsx:346-393 | with each resource listed once, crafting never overdraws |
| Strategy.CheckCosts | contexts/GameContext.tsx:359-368 | the check loop finds the first shortfall |
| Strategy.Deduct | contexts/GameContext.tsx:374-377 | the deduction loop subtracts exactly what is spent |
| Strategy.CraftItem | contexts/GameContext.tsx:346-393 | craftItem with its loops gives exactly the crafting result |
| Strategy.FindItem | contexts/GameContext.tsx:401 | the inventory item of that instance id, or there is none |
| Strategy.EquipSlot | contexts/GameContext.tsx:432-441 | the instance goes into the slot and leaves any other slot of the unit |
| Strategy.EquipAll | contexts/GameContext.tsx:430-445 | exactly the units of that id are re-equipped |
| Strategy.Equip | contexts/GameContext.tsx:395-450 | equipping succeeds exactly for a known unit, an owned instance of a defined item of that slot, not worn by another unit; it re-equips that unit only |
| Strategy.EquipKeepsExclusive | contexts/GameContext.tsx:395-450 | equipping keeps every instance with at most one unit |
| Strategy.UnequipAll | contexts/GameContext.tsx:470-477 | exactly the units of that id lose the slot's item |
| Strategy.Unequip | contexts/GameContext.tsx:452-482 | refused for an unknown unit or an empty slot; otherwise the slot is emptied |
| Strategy.UnequipKeepsExclusive | contexts/GameContext.tsx:452-482 | unequipping keeps every instance with at most one unit |
| Strategy.EquipThenUnequip | contexts/GameContext.tsx:395-482 | equipping then emptying the slot succeeds and leaves the unit holding the instance nowhere |
| ResearchTree.TierAbovePrerequisites | components/ResearchView.tsx:168-186 | a project with prerequisites sits exactly one tier above the highest of them |
| ResearchTree.Tier | components/ResearchView.tsx:168-186 | a project is at tier 0 exactly when it is unknown or has no prerequisites (its value above them is stated by TierAbovePrerequisites) |
| ResearchTree.TierIndependentOfWitness | components/ResearchView.tsx:168-186 | the tier depends only on the catalog |
| ResearchTree.GetTier | components/ResearchView.tsx:168-186 | the memoised recursion returns the tier, keeps the memo table correct, only extends it, and records every catalog project it visits |
| ResearchTree.NodesInOrder | components/ResearchView.tsx:190 | `Object.values(nodes)` lists the memo entries in creation order |
| ResearchTree.MemoiseAll | components/ResearchView.tsx:188 | after the `forEach` every catalog project is memoised |
| ResearchTree.ListedNodes | components/ResearchView.tsx:188-190 | the node list holds each catalog project once with its tier |
| ResearchTree.TreeNodes | components/ResearchView.tsx:164-190 | the nodes are sorted by tier, each catalog project appears exactly once with its tier |
| ResearchTree.DependentsRightOfPrerequisites | components/ResearchView.tsx:168-190 | a dependent always stands in a higher tier than each of its prerequisites |
| ResearchTree.FindNode | components/ResearchView.tsx:214 | the node of that id, or there is none |
| ResearchTree.ConnectionMeaning | components/ResearchView.tsx:211-219 | an edge is drawn exactly from a prerequisite's node to the node listing it |
| ResearchTree.ConnectionCount | components/ResearchView.tsx:211-219 | with distinct ids, the edge from a node to another occurs exactly as many times as the first is listed among the second's prerequisites |
| ResearchTree.IncomingCount | components/ResearchView.tsx:213-218 | the edges into one node from a given node are one per listing of that node among its prerequisites |
| ResearchTree.Connections | components/ResearchView.tsx:211-219 | the nested loop draws exactly the specified edges |
| ResearchTree.InTierMembers | components/ResearchView.tsx:192-196 | a column holds exactly its tier's nodes |
| ResearchTree.HighestTierReached | components/ResearchView.tsx:192-196 | the highest tier bounds every node's tier and is reached |
| ResearchTree.GroupByTier | components/ResearchView.tsx:192-196 | one column per tier up to the highest, each with exactly its tier's nodes in order |
| ResearchTree.TreeWidth | components/ResearchView.tsx:208-221 | the canvas is at least 600 wide and fits every column |
| ResearchTree.ColumnsFitCanvas | components/ResearchView.tsx:202-208 | every node lies left of the canvas's right edge |
| ResearchTree.TallestColumn | components/ResearchView.tsx:198-200 | the tallest column's node count |
| ResearchTree.TreeHeight | components/ResearchView.tsx:209-221 | the canvas is at least 400 high and fits the tallest column |
| ResearchTree.BuildTree | components/ResearchView.tsx:164-222 | the whole computation: sorted nodes, one per project with its tier; the edges are the specified connections, one per listing of a prerequisite that is a node, all pointing rightwards; a canvas wide enough for every column and tall enough for every column's nodes |
| ResearchTree.FlagsMatchStartResearch | components/ResearchView.tsx:287-292 | never both startable and locked; completed or running is neither; an enabled button always starts the project; every successful start of a project not yet completed was offered by an enabled button; a locked project cannot start |
| TeamView.GetXpProgress | components/TeamManagementView.tsx:162-185 | the source's loop gives exactly the bar's progress |
| TeamView.ProgressOf | components/TeamManagementView.tsx:162-185 | the bar is never more than full, and there is no next rank exactly for an unknown rank or the top one |
| TeamView.ProgressOfKnownRank | components/TeamManagementView.tsx:166-182 | experience is counted past the lower ranks; no next rank exactly at the top, where the bar is full; never more than full |
| TeamView.ProgressOfUnknownRank | components/TeamManagementView.tsx:163-164 | an unknown rank shows an empty bar of span 100 and no next rank |
| TeamView.DebriefedBarNotFull | components/TeamManagementView.tsx:177-182 | after a debriefing, the bar of a unit below the top rank is never full |
| TeamView.BelowSpanNotFull | components/TeamManagementView.tsx:177-179 | experience short of the span leaves the bar below full |
| TeamView.AvailableForSlot | components/TeamManagementView.tsx:423-431 | exactly the inventory items of the slot's type not worn by another unit, or the one already in the slot |
| TeamView.OfferedMeansEquippable | components/TeamManagementView.tsx:423-431 | an inventory item is offered exactly when equipping it succeeds |
| DamageChart.HighestTurn | components/GameEndModal.tsx:39 | the reduce bounds every entry's turn and is 0 or reached |
| DamageChart.MaxTurn | components/GameEndModal.tsx:37-42 | the chart spans at least one turn and every entry's turn |
| DamageChart.Series | components/GameEndModal.tsx:44-57 | one slot per turn holding the side's damage in that turn |
| DamageChart.ProcessChartData | components/GameEndModal.tsx:36-57 | the source's loops give exactly the turn count and both series |
| DamageChart.ChartTurns | components/GameEndModal.tsx:37-42 | the reduce loop gives the turn count |
| DamageChart.Accumulate | components/GameEndModal.tsx:44-57 | the zero-filled arrays and the `forEach` give each turn's damage per side |
| DamageChart.TurnDamageSnoc | components/GameEndModal.tsx:48-57 | one more entry changes only its own side's total for its own turn |
| DamageChart.SeriesTotal | components/GameEndModal.tsx:44-57 | each series adds up to all of the side's damage from turn 1 on: no such entry is left off the chart |
| DamageChart.NeutralIgnored | components/GameEndModal.tsx:51-55 | neutral entries never reach the chart |
| DamageChart.EndDialog | components/GameEndModal.tsx:164 | nothing while the game is played; no chart for an empty log; otherwise both series |

## Left out

- Rendering is not modelled: THREE.js scene construction, raycasting, meshes, sprites, camera, floating damage numbers, sound cues, chart labels and styling, and every modal and button layout.
- The click handler takes the first object the ray hits as a `Click` value (tile, unit, obstacle, background) instead of the list of raycast hits; where the source's loop goes on to a later hit (a tile clicked with no move pending, a targeted ability other than deadeye shot, a targeted ability refused after its message), the model makes no further change.
- Message texts are opaque constants or left as the model's own strings where they interpolate names and numbers; the order and count of log entries are modelled.
- `console` output and notifications (`showNotification`) are left out: they change no game state.
- Persistence (local storage, `utils/gameDataManager.ts`), navigation between screens and `checkForNewMissions` / mission generation are not part of this model.
- AutoTurn.FindMoves: does not state that the search is breadth-first with shortest walks, nor that it finds every reachable tile; it states that every candidate is truly reachable within the move speed, with its own walk, and that no tile is offered twice.
- AutoTurn.UnitTurn: does not fix which target or tile each action picks beyond the Shoot and Step contracts it is built from.
- React batching, `setTimeout` delays and the inner stop checks at `components/CombatView.tsx:949` and `:1186` as seen by a concurrent toggle are approximated: the engine plays a turn with no stop point (`stopAt` None); `Turn.PlayTurn` takes the stop point as a parameter.
- Engine.CombatEngine.Tick: states only that a due turn of a finished game stops processing; the other firings are those of `Begin` and `Play`.
- Re-creating the combat state when the component's props change (the mount effect re-running) is not modelled; the constructor is the first mount.
- The `combatStateRef` fallback in `handleReturnToMenuViaCombatEnd` (a missing ref) cannot arise in the model, whose state always exists.
- Floating point: `Math.floor(x * 1.3)` is modelled as the exact `floor(13x / 10)`; the deadeye damage is computed exactly on hundredths before `Math.round`; the experience percentage is an exact real. Results can differ where IEEE rounding would.
- Research node `y` positions (vertical centring within a column) are not modelled; `x` positions, canvas width and height are.
- `getTier`'s `currentDepth` parameter is always 0 in the source's calls and is not modelled.
- A cyclic research catalog: the source has no guard and would recurse without end; the model requires an acyclic catalog (`Layered`).
- `tiers` in the source may be a sparse JavaScript array with holes; the model fills the holes with empty columns, which the layout treats the same way.
- The squad screen's dialogs (rename, dismiss, recruit) and the effect that re-syncs the unit shown in the equipment dialog are not modelled; the operations behind them are (`Strategy.Recruit`, `Strategy.Dismiss`, `Strategy.Rename`, `Strategy.Equip`).
- Unit ids from `Date.now()`/`Math.random()` and crafted instance ids from `generateInstanceId` are parameters.
- Units' visual size and colour are not modelled.
