// The manual combat commands of the combat screen as updaters of the combat
// state: committing a move, an attack or a deadeye shot by clicking, the
// action buttons (move, attack, skip), ability requests, selection and
// cancellation clicks, and ending the player turn. Each updater computes the
// state that the sequence of state updates queued by the source's handler
// produces. Log texts are fixed placeholder strings.
module Combat {
  import opened Types
  import opened Constants
  import opened Rules

  // ----- log texts (placeholders for the interpolated messages) -----

  const MSG_MOVED := "unit moved"
  const MSG_CANNOT_MOVE := "cannot move to this tile"
  const MSG_STEADY_AIM := "steady aim triggered"
  const MSG_ATTACK := "attack hit"
  const MSG_DESTROYED := "unit destroyed"
  const MSG_VICTORY := "all enemies eliminated: victory"
  const MSG_DEFEAT := "all player units lost: defeat"
  const MSG_FRIENDLY := "cannot attack a friendly unit"
  const MSG_INVALID_TARGET := "cannot attack this target"
  const MSG_DEADEYE := "deadeye shot fired"
  const MSG_ABILITY_UNUSABLE := "ability cannot be used on this unit"
  const MSG_SELECTED := "unit selected"
  const MSG_SWITCHED := "pending action cancelled, unit selected"
  const MSG_NOT_SELECTABLE := "unit cannot be selected"
  const MSG_CANCELLED := "pending action cancelled"
  const MSG_OBSTACLE := "obstacle: impassable"
  const MSG_NO_UNIT := "no unit selected"
  const MSG_UNIT_DESTROYED := "unit cannot act: destroyed"
  const MSG_NO_AP := "no action points left"
  const MSG_MOVE_CANCELLED := "move cancelled"
  const MSG_MOVE_READY := "choose a tile to move to"
  const MSG_ATTACK_CANCELLED := "attack cancelled"
  const MSG_ATTACK_READY := "choose an enemy to attack"
  const MSG_SKIP := "unit waits"
  const MSG_ABILITY_UNAVAILABLE := "ability unavailable"
  const MSG_NOT_ENOUGH_AP := "not enough action points"
  const MSG_COOLDOWN := "ability is cooling down"
  const MSG_MOVED_ALREADY := "ability only usable before moving"
  const MSG_ABILITY_CANCELLED := "ability cancelled"
  const MSG_ABILITY_USED := "ability used"
  const MSG_ABILITY_READY := "choose a target for the ability"
  const MSG_TARGET_UNSUPPORTED := "ability target type not supported"
  const MSG_PLAYER_TURN_END := "player turn ends"
  const MSG_ENEMY_TURN_START := "player turn over, enemy turn begins"

  // ----- the combat-state invariant -----

  /** Units stay on the board, health and action points within their bounds, ids unique. */
  predicate UnitsOk(units: seq<Unit>)
  {
    && UniqueIds(units)
    && forall i :: 0 <= i < |units| ==>
         && InBounds(units[i].pos)
         && 0 <= units[i].health <= units[i].maxHealth
         && 0 <= units[i].ap <= units[i].maxAp
  }

  /** Where the selected unit stands in the list, when the id refers to one. */
  function SelectedIndex(s: CombatState): (r: Option<nat>)
    ensures r.Some? ==> r.value < |s.units| && s.selected == Some(s.units[r.value].id)
  {
    if s.selected.Some? then IndexOf(s.units, s.selected.value) else None
  }

  /** The selected unit, when the id refers to one (`units.find(u => u.id === selectedUnitId)`). */
  function Selected(s: CombatState): (r: Option<Unit>)
    ensures r.Some? ==> r.value in s.units && s.selected == Some(r.value.id)
    ensures r.Some? <==> SelectedIndex(s).Some?
  {
    match SelectedIndex(s)
    case Some(k) => Some(s.units[k])
    case None => None
  }

  /** Action points a pending action will cost once committed. */
  function PendingCost(p: PendingAction): int
  {
    match p
    case PendingAbility(id) => if id in ALL_ABILITIES then ALL_ABILITIES[id].apCost else 0
    case PendingSkip => 0
    case _ => 1
  }

  /** A pending action belongs to an existing selected unit that can pay for it. */
  predicate PendingOk(s: CombatState)
  {
    s.pending.Some? ==>
      && Selected(s).Some?
      && Selected(s).value.ap >= PendingCost(s.pending.value)
      && (s.pending.value.PendingAbility? ==> s.pending.value.abilityId in ALL_ABILITIES)
  }

  /**
   * What every reachable combat state satisfies. The log may hold one entry
   * beyond its usual bound of ten, because ending the player turn appends its
   * message without trimming.
   */
  predicate StateOk(s: CombatState)
  {
    WellFormedGrid(s.grid) && UnitsOk(s.units) && |s.log| <= MESSAGE_LOG_SIZE + 1 && PendingOk(s)
  }

  // ----- looking units up -----

  lemma SameIdsSameIndex(us: seq<Unit>, vs: seq<Unit>, id: string)
    requires |us| == |vs| && forall i :: 0 <= i < |us| ==> us[i].id == vs[i].id
    ensures IndexOf(us, id) == IndexOf(vs, id)
  {
    var a, b := IndexOf(us, id), IndexOf(vs, id);
    if a.Some? && b.Some? {
      assert !(a.value < b.value) && !(b.value < a.value);
    }
  }

  lemma SameIdsUnique(us: seq<Unit>, vs: seq<Unit>)
    requires UniqueIds(us) && |us| == |vs| && forall i :: 0 <= i < |us| ==> us[i].id == vs[i].id
    ensures UniqueIds(vs)
  {
    forall k | 0 <= k < |vs| ensures IndexOf(vs, vs[k].id) == Some(k) {
      SameIdsSameIndex(us, vs, vs[k].id);
    }
  }

  lemma FindPresent(us: seq<Unit>, u: Unit)
    requires UniqueIds(us) && u in us
    ensures FindUnit(us, u.id) == Some(u)
  {
    var k :| 0 <= k < |us| && us[k] == u;
    UniqueIndexOf(us, k);
  }

  lemma FindAbsent(us: seq<Unit>, id: string)
    requires forall u :: u in us ==> u.id != id
    ensures FindUnit(us, id) == None
  {
    assert forall k :: 0 <= k < |us| ==> us[k] in us;
  }

  // ----- effects -----

  predicate IsUnspentSteadyAim(e: TempEffect)
  {
    e.source == "steady_aim" && e.active && !e.applied
  }

  /** An active blitz effect, whatever stat it boosts (the move click does not check the stat). */
  predicate IsActiveBlitzEffect(e: TempEffect)
  {
    e.source == "blitz" && e.active
  }

  /** The first unspent steady aim effect, if any. */
  function FirstSteadyAim(effects: seq<TempEffect>): (r: Option<TempEffect>)
    ensures r.Some? ==> r.value in effects && IsUnspentSteadyAim(r.value)
    ensures r.None? ==> forall e :: e in effects ==> !IsUnspentSteadyAim(e)
  {
    if |effects| == 0 then None
    else if IsUnspentSteadyAim(effects[0]) then Some(effects[0])
    else FirstSteadyAim(effects[1..])
  }

  /** The first active blitz effect, if any. */
  function FirstBlitzEffect(effects: seq<TempEffect>): (r: Option<TempEffect>)
    ensures r.Some? ==> r.value in effects && IsActiveBlitzEffect(r.value)
    ensures r.None? ==> forall e :: e in effects ==> !IsActiveBlitzEffect(e)
  {
    if |effects| == 0 then None
    else if IsActiveBlitzEffect(effects[0]) then Some(effects[0])
    else FirstBlitzEffect(effects[1..])
  }

  /** The damage an unspent steady aim adds to the next attack (0 when there is none). */
  function SteadyAimBonus(u: Unit): int
  {
    match FirstSteadyAim(u.effects)
    case Some(e) => e.value
    case None => 0
  }

  /** The move range the move click allows: base speed plus the first active blitz value. */
  function ClickMoveSpeed(u: Unit): int
  {
    match FirstBlitzEffect(u.effects)
    case Some(e) => u.moveSpeed + e.value
    case None => u.moveSpeed
  }

  /** Moving consumes every active blitz effect and keeps everything else. */
  function WithoutActiveBlitz(effects: seq<TempEffect>): (r: seq<TempEffect>)
    ensures forall e :: e in r ==> e in effects && !IsActiveBlitzEffect(e)
    ensures |r| <= |effects|
  {
    if |effects| == 0 then []
    else
      assert effects == [effects[0]] + effects[1..];
      (if IsActiveBlitzEffect(effects[0]) then [] else [effects[0]]) + WithoutActiveBlitz(effects[1..])
  }

  lemma {:induction false} WithoutActiveBlitzKeeps(effects: seq<TempEffect>, e: TempEffect)
    requires e in effects && !IsActiveBlitzEffect(e)
    ensures e in WithoutActiveBlitz(effects)
    decreases |effects|
  {
    assert effects == [effects[0]] + effects[1..];
    if e != effects[0] {
      WithoutActiveBlitzKeeps(effects[1..], e);
    }
  }

  /** An active steady aim is marked as spent by the attack. */
  function Spend(e: TempEffect): TempEffect
  {
    if e.source == "steady_aim" && e.active then e.(applied := true, active := false) else e
  }

  /**
   * The attacker's effects after a manual attack: steady aim is spent, then
   * every inactive one-shot effect is dropped.
   */
  function AfterAttack(effects: seq<TempEffect>): (r: seq<TempEffect>)
    ensures |r| <= |effects|
    ensures forall e :: e in r ==> (e.active || !e.nextAttackOnly) && !(e.source == "steady_aim" && e.active)
  {
    if |effects| == 0 then []
    else
      assert effects == [effects[0]] + effects[1..];
      var e := Spend(effects[0]);
      (if e.active || !e.nextAttackOnly then [e] else []) + AfterAttack(effects[1..])
  }

  /** What the attack keeps: every effect other than steady aim that is still usable, and a spent lasting steady aim. */
  lemma {:induction false} AfterAttackKeeps(effects: seq<TempEffect>, e: TempEffect)
    requires e in effects
    ensures e.source != "steady_aim" && (e.active || !e.nextAttackOnly) ==> e in AfterAttack(effects)
    ensures e.source == "steady_aim" && e.active && !e.nextAttackOnly ==> e.(applied := true, active := false) in AfterAttack(effects)
    decreases |effects|
  {
    assert effects == [effects[0]] + effects[1..];
    if e != effects[0] {
      AfterAttackKeeps(effects[1..], e);
    }
  }

  // ----- grids -----

  /** Marks the tile at `p` free; nothing changes when `p` is off the grid. */
  function MarkFree(g: Grid, p: Position): (r: Grid)
    ensures |r| == |g| && forall x :: 0 <= x < |g| ==> |r[x]| == |g[x]|
    ensures forall x, y {:trigger r[x][y]} :: 0 <= x < |g| && 0 <= y < |g[x]| ==>
      r[x][y] == if Position(x, y) == p then g[x][y].(occupied := false) else g[x][y]
  {
    seq(|g|, x requires 0 <= x < |g| => seq(|g[x]|, y requires 0 <= y < |g[x]| =>
      if Position(x, y) == p then g[x][y].(occupied := false) else g[x][y]))
  }

  /** The grid after a committed move: highlights cleared, the old tile freed, the new one occupied. */
  function MoveGrid(g: Grid, from: Position, to: Position): (r: Grid)
    ensures |r| == |g| && forall x :: 0 <= x < |g| ==> |r[x]| == |g[x]|
    ensures forall x, y {:trigger r[x][y]} :: 0 <= x < |g| && 0 <= y < |g[x]| ==>
      r[x][y] == g[x][y].(highlight := None,
                          occupied := if Position(x, y) == to then true
                                      else if Position(x, y) == from then false
                                      else g[x][y].occupied)
  {
    seq(|g|, x requires 0 <= x < |g| => seq(|g[x]|, y requires 0 <= y < |g[x]| =>
      g[x][y].(highlight := None,
               occupied := if Position(x, y) == to then true
                           else if Position(x, y) == from then false
                           else g[x][y].occupied)))
  }

  lemma MarkFreeWellFormed(g: Grid, p: Position)
    requires WellFormedGrid(g)
    ensures WellFormedGrid(MarkFree(g, p))
  {
  }

  // ----- removing destroyed units -----

  /** `units.filter(u => u.id !== id || u.health > 0)`. */
  function RemoveDestroyed(units: seq<Unit>, id: string): (r: seq<Unit>)
    ensures |r| <= |units|
  {
    if |units| == 0 then []
    else
      var last := units[|units| - 1];
      var rest := RemoveDestroyed(units[..|units| - 1], id);
      if last.id != id || last.health > 0 then rest + [last] else rest
  }

  /** The filter keeps exactly the units that are not the destroyed target. */
  lemma {:induction false} RemoveDestroyedMembers(units: seq<Unit>, id: string, u: Unit)
    ensures u in RemoveDestroyed(units, id) <==> u in units && (u.id != id || u.health > 0)
    decreases |units|
  {
    if |units| > 0 {
      var init := units[..|units| - 1];
      RemoveDestroyedMembers(init, id, u);
      assert units == init + [units[|units| - 1]];
    }
  }

  /** Filtering keeps ids unique. */
  lemma RemoveDestroyedUnique(units: seq<Unit>, id: string)
    requires UniqueIds(units)
    ensures UniqueIds(RemoveDestroyed(units, id))
  {
    UniqueIdsDistinct(units);
    RemoveDestroyedDistinct(units, id);
    UniqueIdsDistinct(RemoveDestroyed(units, id));
  }

  /** No two units share an id, pair by pair. */
  predicate PairwiseIds(units: seq<Unit>)
  {
    forall i, j :: 0 <= i < j < |units| ==> units[i].id != units[j].id
  }

  lemma {:induction false} RemoveDestroyedDistinct(units: seq<Unit>, id: string)
    requires PairwiseIds(units)
    ensures PairwiseIds(RemoveDestroyed(units, id))
    decreases |units|
  {
    if |units| > 0 {
      var n := |units| - 1;
      var init := units[..n];
      var last := units[n];
      assert PairwiseIds(init) by {
        forall a, b | 0 <= a < b < |init| ensures init[a].id != init[b].id {
          assert init[a] == units[a] && init[b] == units[b];
        }
      }
      RemoveDestroyedDistinct(init, id);
      var rest := RemoveDestroyed(init, id);
      if last.id != id || last.health > 0 {
        forall x | 0 <= x < |rest| ensures rest[x].id != last.id {
          assert rest[x] in rest;
          RemoveDestroyedMembers(init, id, rest[x]);
          var k :| 0 <= k < |init| && init[k] == rest[x];
          assert units[k] == init[k] && k < n;
        }
        var r := rest + [last];
        forall a, b | 0 <= a < b < |r| ensures r[a].id != r[b].id {
          if b == |rest| {
            assert r[a] == rest[a];
          } else {
            assert r[a] == rest[a] && r[b] == rest[b];
          }
        }
        assert RemoveDestroyed(units, id) == r;
      } else {
        assert RemoveDestroyed(units, id) == rest;
      }
    }
  }

  /** Dropping destroyed units never changes who is still alive. */
  lemma RemoveDestroyedKeepsAlive(units: seq<Unit>, id: string, side: Allegiance)
    ensures AnyAlive(RemoveDestroyed(units, id), side) == AnyAlive(units, side)
  {
    if AnyAlive(units, side) {
      var u :| u in units && u.allegiance == side && u.health > 0;
      RemoveDestroyedMembers(units, id, u);
    }
    if AnyAlive(RemoveDestroyed(units, id), side) {
      var u :| u in RemoveDestroyed(units, id) && u.allegiance == side && u.health > 0;
      RemoveDestroyedMembers(units, id, u);
    }
  }

  /** The outcome only depends on which sides still have living units. */
  lemma GameOverSameAlive(u1: seq<Unit>, u2: seq<Unit>, prev: GameOverState)
    requires AnyAlive(u1, Player) == AnyAlive(u2, Player) && AnyAlive(u1, Enemy) == AnyAlive(u2, Enemy)
    ensures GameOverStatus(u1, prev) == GameOverStatus(u2, prev)
  {
    GameOverStatusMeaning(u1, prev);
    GameOverStatusMeaning(u2, prev);
  }

  /** The outcome of a game is the same whether or not the destroyed unit is still listed. */
  lemma GameOverIgnoresDestroyed(units: seq<Unit>, id: string, prev: GameOverState)
    ensures GameOverStatus(RemoveDestroyed(units, id), prev) == GameOverStatus(units, prev)
  {
    RemoveDestroyedKeepsAlive(units, id, Player);
    RemoveDestroyedKeepsAlive(units, id, Enemy);
    GameOverSameAlive(RemoveDestroyed(units, id), units, prev);
  }

  // ----- committing a move (move pending, a tile clicked) -----

  /** The move click accepts a tile highlighted for movement, walkable, and within the click's move range. */
  predicate MoveAccepted(s: CombatState, u: Unit, p: Position)
    requires WellFormedGrid(s.grid) && InBounds(p)
  {
    && TileAt(s.grid, p).highlight == Some(MoveHighlight)
    && TileAt(s.grid, p).walkable && !TileAt(s.grid, p).obstacle
    && Manhattan(u.pos, p) <= ClickMoveSpeed(u)
  }

  function MovedUnits(units: seq<Unit>, id: string, p: Position): (r: seq<Unit>)
    ensures |r| == |units|
    ensures forall i {:trigger r[i]} :: 0 <= i < |units| ==>
      r[i] == (if units[i].id == id
               then units[i].(pos := p, ap := units[i].ap - 1, hasMoved := true, effects := WithoutActiveBlitz(units[i].effects))
               else units[i])
  {
    seq(|units|, i requires 0 <= i < |units| =>
      if units[i].id == id
      then units[i].(pos := p, ap := units[i].ap - 1, hasMoved := true, effects := WithoutActiveBlitz(units[i].effects))
      else units[i])
  }

  function CommitMove(s: CombatState, u: Unit, p: Position): CombatState
    requires WellFormedGrid(s.grid)
  {
    ClearAllHighlights(s.(units := MovedUnits(s.units, u.id, p), grid := MoveGrid(s.grid, u.pos, p),
                          pending := None, log := AddMessage(s.log, MSG_MOVED)))
  }

  /**
   * A committed move puts the unit on the tile, charges one action point,
   * marks it as moved and spends its blitz; the destination becomes occupied
   * and the tile it left free; nothing else about the units changes.
   */
  lemma MoveOutcome(s: CombatState, k: nat, p: Position)
    requires WellFormedGrid(s.grid) && UniqueIds(s.units) && k < |s.units| && InBounds(p)
    ensures var u := s.units[k];
      var r := CommitMove(s, u, p);
      && |r.units| == |s.units|
      && r.units[k] == u.(pos := p, ap := u.ap - 1, hasMoved := true,
                           effects := WithoutActiveBlitz(u.effects), targetable := false)
      && (forall i :: 0 <= i < |s.units| && i != k ==> r.units[i] == s.units[i].(targetable := false))
      && WellFormedGrid(r.grid)
      && TileAt(r.grid, p).occupied
      && (InBounds(u.pos) && u.pos != p ==> !TileAt(r.grid, u.pos).occupied)
      && (forall q :: InBounds(q) && q != p && q != u.pos ==> TileAt(r.grid, q) == TileAt(s.grid, q).(highlight := None))
      && r.pending == None && r.damageLog == s.damageLog && r.gameOver == s.gameOver
  {
  }

  // ----- committing a manual attack (attack pending, a unit clicked) -----

  function ManualDamage(a: Unit, t: Unit, g: Grid): (d: int)
    requires WellFormedGrid(g)
    ensures d >= 0
    ensures d >= a.attackDamage + SteadyAimBonus(a) - CoverBenefit(a.pos, t.pos, g)
    ensures d == 0 || d == a.attackDamage + SteadyAimBonus(a) - CoverBenefit(a.pos, t.pos, g)
  {
    var base := a.attackDamage + SteadyAimBonus(a);
    var c := CoverBenefit(a.pos, t.pos, g);
    if base - c > 0 then base - c else 0
  }

  /** One kill is credited when a player unit brings a living enemy to zero health or below. */
  function KillCredit(a: Unit, original: Option<Unit>, newHealth: int): int
  {
    if a.allegiance == Player && original.Some? && original.value.allegiance == Enemy
       && newHealth <= 0 && original.value.health > 0
    then 1 else 0
  }

  /** How the shooter pays for a shot: a manual attack, or one of its abilities (the deadeye shot). */
  datatype Shot = Manual | Ability(def: AbilityDef)

  /**
   * The shooter after its shot: a manual attack spends one action point and
   * uses up steady aim, an ability pays its cost and starts its cooldown;
   * either way the kill is credited.
   */
  function Fire(u: Unit, shot: Shot, kill: int): Unit
  {
    match shot
    case Manual => u.(ap := u.ap - 1, kills := u.kills + kill, effects := AfterAttack(u.effects))
    case Ability(def) =>
      u.(ap := u.ap - def.apCost, kills := u.kills + kill,
         abilities := SetCooldown(u.abilities, def.id, def.cooldownTurns))
  }

  function Struck(u: Unit, a: Unit, t: Unit, newHealth: int, shot: Shot, kill: int): Unit
  {
    if u.id == a.id then Fire(u, shot, kill)
    else if u.id == t.id then u.(health := newHealth)
    else u
  }

  /** A shot changes no unit's id. */
  lemma StruckId(u: Unit, a: Unit, t: Unit, newHealth: int, shot: Shot, kill: int)
    ensures Struck(u, a, t, newHealth, shot, kill).id == u.id
  {
  }

  /** The unit list right after `a` shot `t`, before a destroyed target is removed. */
  function StruckUnits(units: seq<Unit>, a: Unit, t: Unit, newHealth: int, shot: Shot, kill: int): (r: seq<Unit>)
    ensures |r| == |units|
  {
    if |units| == 0 then []
    else StruckUnits(units[..|units| - 1], a, t, newHealth, shot, kill) + [Struck(units[|units| - 1], a, t, newHealth, shot, kill)]
  }

  lemma {:induction false} StruckUnitsAt(units: seq<Unit>, a: Unit, t: Unit, newHealth: int, shot: Shot, kill: int, k: nat)
    requires k < |units|
    ensures StruckUnits(units, a, t, newHealth, shot, kill)[k] == Struck(units[k], a, t, newHealth, shot, kill)
    decreases |units|
  {
    if k < |units| - 1 {
      StruckUnitsAt(units[..|units| - 1], a, t, newHealth, shot, kill, k);
    }
  }

  function GameOverMessages(status: GameOverState, prev: GameOverState): seq<string>
  {
    if status != prev && status != Playing then [if status == Victory then MSG_VICTORY else MSG_DEFEAT] else []
  }

  /**
   * The common end of an attack and a deadeye shot, given the updated unit
   * list: a destroyed target frees its tile and leaves the list, the outcome
   * is judged, the messages are logged and nothing stays pending.
   */
  function Resolve(s: CombatState, prior: seq<string>, units: seq<Unit>, id: string, pos: Position, newHealth: int,
                   lead: seq<string>, entries: seq<DamageEntry>): (r: CombatState)
    requires WellFormedGrid(s.grid)
    ensures r.units == Settled(units, id, newHealth)
    ensures Recorded(s, pos, newHealth, entries, r)
    ensures forall p :: InBounds(p) && (newHealth > 0 || p != pos) ==> TileAt(r.grid, p) == TileAt(s.grid, p).(highlight := None)
    ensures r.selected == s.selected && r.delegated == s.delegated
  {
    var destroyed := newHealth <= 0;
    var status := GameOverStatus(units, s.gameOver);
    var msgs := lead + (if destroyed then [MSG_DESTROYED] else []) + GameOverMessages(status, s.gameOver);
    SettledAlive(units, id, newHealth, Player);
    SettledAlive(units, id, newHealth, Enemy);
    GameOverSameAlive(Settled(units, id, newHealth), units, s.gameOver);
    ClearAllHighlights(s.(
      units := if destroyed then RemoveDestroyed(units, id) else units,
      grid := if destroyed then MarkFree(s.grid, pos) else s.grid,
      pending := None,
      damageLog := s.damageLog + entries,
      log := Trim(prior + msgs),
      gameOver := status))
  }

  /** The steady-aim announcement, logged before the attack when the aim adds damage. */
  function AimLog(log: seq<string>, a: Unit): seq<string>
  {
    if SteadyAimBonus(a) != 0 then AddMessage(log, MSG_STEADY_AIM) else log
  }

  /** The three unit changes an attack makes, by index, for a list with unique ids. */
  lemma StruckUnitsFacts(us: seq<Unit>, i: nat, j: nat, h: int, shot: Shot, kill: int)
    requires UniqueIds(us) && i < |us| && j < |us| && i != j
    ensures var r := StruckUnits(us, us[i], us[j], h, shot, kill);
      && r[i] == Fire(us[i], shot, kill)
      && r[j] == us[j].(health := h)
      && forall k :: 0 <= k < |us| && k != i && k != j ==> r[k] == us[k]
  {
    var r := StruckUnits(us, us[i], us[j], h, shot, kill);
    forall k | 0 <= k < |us| ensures r[k] == Struck(us[k], us[i], us[j], h, shot, kill) {
      StruckUnitsAt(us, us[i], us[j], h, shot, kill, k);
    }
  }

  /**
   * The unit list `r` after `a` hit `t` (both units of `us`, with different
   * ids, ids unique), leaving it `h` health: the attacker has become
   * `shooter`, the target has its new health or is gone exactly when `h` is
   * zero or below, everyone else is as before, and no one is targetable any
   * more.
   */
  predicate HitUnits(us: seq<Unit>, a: Unit, t: Unit, h: int, shooter: Unit, r: seq<Unit>)
  {
    UniqueIds(us) && a in us && t in us && a.id != t.id ==>
      && FindUnit(r, a.id) == Some(shooter.(targetable := false))
      && (h <= 0 ==> FindUnit(r, t.id) == None)
      && (h > 0 ==> FindUnit(r, t.id) == Some(t.(health := h, targetable := false)))
      && (forall u :: u in us && u.id != a.id && u.id != t.id ==> FindUnit(r, u.id) == Some(u.(targetable := false)))
      && |r| == |us| - (if h <= 0 then 1 else 0)
  }

  /**
   * How a shot leaving the unit standing on `pos` with `h` health is
   * recorded in `r`: a destroyed target's tile is freed, the damage entries are appended, the outcome is
   * judged on the units that remain, nothing stays pending, the turn goes on
   * and the message log keeps its bound.
   */
  predicate Recorded(s: CombatState, pos: Position, h: int, entries: seq<DamageEntry>, r: CombatState)
  {
    && WellFormedGrid(r.grid)
    && (h <= 0 && InBounds(pos) ==> !TileAt(r.grid, pos).occupied)
    && r.damageLog == s.damageLog + entries
    && r.gameOver == GameOverStatus(r.units, s.gameOver)
    && r.pending == None && r.turnNumber == s.turnNumber && r.currentTurn == s.currentTurn
    && |r.log| <= MESSAGE_LOG_SIZE
  }

  /**
   * What a manual attack by `a` on `t`, dealing `d`, promises: the units
   * change as `HitUnits` says, the attacker spending one action point and
   * its steady aim and being credited a kill exactly when a player unit
   * destroys a living enemy, and the attack is recorded with one damage
   * entry.
   */
  predicate AttackOutcome(s: CombatState, a: Unit, t: Unit, d: int, r: CombatState)
  {
    && HitUnits(s.units, a, t, t.health - d, Fire(a, Manual, KillCredit(a, Some(t), t.health - d)), r.units)
    && Recorded(s, t.pos, t.health - d, [DamageEntry(s.turnNumber, a.allegiance, d, t.name)], r)
  }

  function CommitAttack(s: CombatState, a: Unit, t: Unit): (r: CombatState)
    requires WellFormedGrid(s.grid)
    ensures AttackOutcome(s, a, t, ManualDamage(a, t, s.grid), r)
  {
    Shoot(s, AimLog(s.log, a), a, t, Manual, t.health - ManualDamage(a, t, s.grid), [MSG_ATTACK],
          [DamageEntry(s.turnNumber, a.allegiance, ManualDamage(a, t, s.grid), t.name)])
  }

  /**
   * `a` shoots `t`, leaving it `h` health, paying as `shot` says, after the
   * log has become `prior`; `lead` and `entries` are the messages and
   * damage-log entries the shot writes.
   */
  function Shoot(s: CombatState, prior: seq<string>, a: Unit, t: Unit, shot: Shot, h: int,
                 lead: seq<string>, entries: seq<DamageEntry>): (r: CombatState)
    requires WellFormedGrid(s.grid)
    ensures HitUnits(s.units, a, t, h, Fire(a, shot, KillCredit(a, Some(t), h)), r.units)
    ensures Recorded(s, t.pos, h, entries, r)
    ensures UnitsOk(s.units) && a in s.units && t in s.units && h <= t.health && 0 <= Fire(a, shot, 0).ap <= a.ap ==>
              UnitsOk(r.units)
  {
    StruckSettled(s.units, a, t, h, shot,
                  Settled(StruckUnits(s.units, a, t, h, shot, KillCredit(a, FindUnit(s.units, t.id), h)), t.id, h));
    ShotUnitsOkWhen(s.units, a, t, h, shot, KillCredit(a, FindUnit(s.units, t.id), h));
    Resolve(s, prior, StruckUnits(s.units, a, t, h, shot, KillCredit(a, FindUnit(s.units, t.id), h)), t.id, t.pos, h, lead, entries)
  }

  /** The unit list once an attack resolves: the destroyed target dropped, and targeting reset. */
  function Settled(units: seq<Unit>, id: string, newHealth: int): seq<Unit>
  {
    NoneTargetable(if newHealth <= 0 then RemoveDestroyed(units, id) else units)
  }

  /** Resolving keeps ids unique. */
  lemma SettledUnique(units: seq<Unit>, id: string, newHealth: int)
    requires UniqueIds(units)
    ensures UniqueIds(Settled(units, id, newHealth))
  {
    var destroyed := newHealth <= 0;
    var fin := if destroyed then RemoveDestroyed(units, id) else units;
    if destroyed { RemoveDestroyedUnique(units, id); }
    SameIdsUnique(fin, NoneTargetable(fin));
  }

  /**
   * Looking units up after an attack resolves: the destroyed target is gone,
   * every other unit is found as it was apart from targeting.
   */
  lemma SettledFind(units: seq<Unit>, j: nat)
    requires UniqueIds(units) && j < |units|
    ensures var r := Settled(units, units[j].id, units[j].health);
      && (forall k :: 0 <= k < |units| && (k != j || units[j].health > 0) ==>
            FindUnit(r, units[k].id) == Some(units[k].(targetable := false)))
      && (units[j].health <= 0 ==> FindUnit(r, units[j].id) == None)
      && |r| == |units| - (if units[j].health <= 0 then 1 else 0)
  {
    var id := units[j].id;
    var destroyed := units[j].health <= 0;
    var fin := if destroyed then RemoveDestroyed(units, id) else units;
    var r := NoneTargetable(fin);
    if destroyed { RemoveDestroyedUnique(units, id); }
    forall k | 0 <= k < |units| && (k != j || !destroyed)
      ensures FindUnit(r, units[k].id) == Some(units[k].(targetable := false))
    {
      if destroyed { RemoveDestroyedMembers(units, id, units[k]); }
      assert units[k] in fin;
      FindPresent(fin, units[k]);
      SameIdsSameIndex(fin, r, units[k].id);
    }
    if destroyed {
      forall u | u in fin ensures u.id != id {
        RemoveDestroyedMembers(units, id, u);
        var k :| 0 <= k < |units| && units[k] == u;
      }
      FindAbsent(fin, id);
      SameIdsSameIndex(fin, r, id);
      RemovedOne(units, j);
    }
  }

  /** Resolving never changes which sides still have living units. */
  lemma SettledAlive(units: seq<Unit>, id: string, newHealth: int, side: Allegiance)
    ensures AnyAlive(Settled(units, id, newHealth), side) == AnyAlive(units, side)
  {
    var fin := if newHealth <= 0 then RemoveDestroyed(units, id) else units;
    NoneTargetableAlive(fin, side);
    if newHealth <= 0 { RemoveDestroyedKeepsAlive(units, id, side); }
  }

  /**
   * Looking units up once a hit on `us[j]` resolves, where the hit changed
   * only the attacker `us[i]` (keeping its id) and the target's health: the
   * attacker is found as changed, the target is gone exactly when its health
   * is at zero or below, every other unit is found as it was, all apart from
   * targeting.
   */
  lemma HitLookup(us: seq<Unit>, units: seq<Unit>, i: nat, j: nat, h: int)
    requires UniqueIds(us) && |units| == |us| && i < |us| && j < |us| && i != j
    requires units[i].id == us[i].id && units[j] == us[j].(health := h)
    requires forall k :: 0 <= k < |us| && k != i && k != j ==> units[k] == us[k]
    ensures var r := Settled(units, us[j].id, h);
      && FindUnit(r, us[i].id) == Some(units[i].(targetable := false))
      && (h <= 0 ==> FindUnit(r, us[j].id) == None)
      && (h > 0 ==> FindUnit(r, us[j].id) == Some(us[j].(health := h, targetable := false)))
      && (forall u :: u in us && u.id != us[i].id && u.id != us[j].id ==> FindUnit(r, u.id) == Some(u.(targetable := false)))
      && |r| == |us| - (if h <= 0 then 1 else 0)
  {
    assert forall k :: 0 <= k < |us| ==> units[k].id == us[k].id;
    SameIdsUnique(us, units);
    SettledFind(units, j);
    forall u | u in us && u.id != us[i].id && u.id != us[j].id
      ensures FindUnit(Settled(units, us[j].id, h), u.id) == Some(u.(targetable := false))
    {
      var k :| 0 <= k < |us| && us[k] == u;
      assert units[k] == u;
    }
  }

  lemma StruckSettled(us: seq<Unit>, a: Unit, t: Unit, h: int, shot: Shot, r: seq<Unit>)
    requires r == Settled(StruckUnits(us, a, t, h, shot, KillCredit(a, FindUnit(us, t.id), h)), t.id, h)
    ensures HitUnits(us, a, t, h, Fire(a, shot, KillCredit(a, Some(t), h)), r)
  {
    var kill := KillCredit(a, FindUnit(us, t.id), h);
    if UniqueIds(us) && a in us && t in us && a.id != t.id {
      var i :| 0 <= i < |us| && us[i] == a;
      var j :| 0 <= j < |us| && us[j] == t;
      UniqueIndexOf(us, j);
      StruckUnitsFacts(us, i, j, h, shot, kill);
      HitLookup(us, StruckUnits(us, a, t, h, shot, kill), i, j, h);
    }
  }

  lemma NoneTargetableAlive(units: seq<Unit>, side: Allegiance)
    ensures AnyAlive(NoneTargetable(units), side) == AnyAlive(units, side)
  {
    var r := NoneTargetable(units);
    if AnyAlive(units, side) {
      var u :| u in units && u.allegiance == side && u.health > 0;
      var k :| 0 <= k < |units| && units[k] == u;
      assert r[k] in r;
    }
    if AnyAlive(r, side) {
      var u :| u in r && u.allegiance == side && u.health > 0;
      var k :| 0 <= k < |r| && r[k] == u;
      assert units[k] in units;
    }
  }

  /** Removing the one destroyed unit of a list with unique ids shortens it by one. */
  lemma RemovedOne(units: seq<Unit>, j: nat)
    requires UniqueIds(units) && j < |units| && units[j].health <= 0
    ensures |RemoveDestroyed(units, units[j].id)| == |units| - 1
  {
    forall k | 0 <= k < |units| && k != j ensures units[k].id != units[j].id {
      UniqueIndexOf(units, k);
      UniqueIndexOf(units, j);
    }
    RemovedOnly(units, j);
  }

  /** Removing a destroyed unit whose id no other unit has shortens the list by one. */
  lemma {:induction false} RemovedOnly(units: seq<Unit>, j: nat)
    requires j < |units| && units[j].health <= 0
    requires forall k :: 0 <= k < |units| && k != j ==> units[k].id != units[j].id
    ensures |RemoveDestroyed(units, units[j].id)| == |units| - 1
    decreases |units|
  {
    var n := |units| - 1;
    var init := units[..n];
    var id := units[j].id;
    RemoveDestroyedSnoc(units, id);
    if j == n {
      forall u | u in init ensures u.id != id {
        var k :| 0 <= k < |init| && init[k] == u;
        assert units[k] == u;
      }
      KeepAll(init, id);
    } else {
      assert init[j] == units[j];
      forall k | 0 <= k < |init| && k != j ensures init[k].id != init[j].id {
        assert init[k] == units[k];
      }
      RemovedOnly(init, j);
      assert units[n].id != id;
    }
  }

  lemma RemoveDestroyedSnoc(units: seq<Unit>, id: string)
    requires |units| > 0
    ensures units[|units| - 1].id != id ==> |RemoveDestroyed(units, id)| == |RemoveDestroyed(units[..|units| - 1], id)| + 1
    ensures units[|units| - 1].health <= 0 && units[|units| - 1].id == id ==>
              |RemoveDestroyed(units, id)| == |RemoveDestroyed(units[..|units| - 1], id)|
  {
  }

  lemma {:induction false} KeepAll(units: seq<Unit>, id: string)
    requires forall u :: u in units ==> u.id != id
    ensures RemoveDestroyed(units, id) == units
    decreases |units|
  {
    if |units| > 0 {
      KeepAll(units[..|units| - 1], id);
      assert units == units[..|units| - 1] + [units[|units| - 1]];
    }
  }

  // ----- committing a deadeye shot (deadeye pending, an enemy clicked) -----

  /** The percentage bonus of the first damage modifier (`|| 0`). */
  function DamagePercent(effects: seq<AbilityEffect>): int
  {
    if |effects| == 0 then 0
    else if effects[0].kind == DamageModifier then effects[0].percent
    else DamagePercent(effects[1..])
  }

  /**
   * `Math.round(Math.max(0, b + b * percent / 100 - cover))`, computed on
   * hundredths so that no rounding error arises.
   */
  function DeadeyeDamage(base: int, percent: int, cover: int): (d: int)
    ensures d >= 0
  {
    var hundredths := 100 * base + percent * base - 100 * cover;
    if hundredths <= 0 then 0 else (hundredths + 50) / 100
  }

  /** The deadeye damage is the raw amount rounded half up, and never negative. */
  lemma DeadeyeRoundsHalfUp(base: int, percent: int, cover: int)
    ensures var raw := 100 * base + percent * base - 100 * cover;
      var d := DeadeyeDamage(base, percent, cover);
      && (raw <= 0 ==> d == 0)
      && (raw > 0 ==> 100 * d - 50 <= raw < 100 * d + 50)
  {
  }

  /** With the shipped 50% modifier an even base damage and no cover deal exactly one and a half times the base. */
  lemma DeadeyeOneAndAHalf(base: int)
    requires base >= 0 && base % 2 == 0
    ensures DeadeyeDamage(base, DamagePercent(DEADEYE_SHOT.effects), 0) == base + base / 2
  {
    assert 100 * base + 50 * base == 150 * base;
  }

  function SetCooldown(abilities: seq<AbilityStatus>, id: string, cd: int): (r: seq<AbilityStatus>)
    ensures |r| == |abilities|
    ensures forall i {:trigger r[i]} :: 0 <= i < |abilities| ==>
      r[i] == if abilities[i].abilityId == id then abilities[i].(cooldown := cd) else abilities[i]
  {
    seq(|abilities|, i requires 0 <= i < |abilities| =>
      if abilities[i].abilityId == id then abilities[i].(cooldown := cd) else abilities[i])
  }

  /**
   * What a deadeye shot by `a` on `t`, dealing `d`, promises: the units
   * change as after a plain attack, except that the shooter pays the
   * ability's cost and starts its cooldown instead of spending steady aim,
   * and no damage entry is written.
   */
  predicate DeadeyeOutcome(s: CombatState, a: Unit, t: Unit, def: AbilityDef, d: int, r: CombatState)
  {
    && HitUnits(s.units, a, t, t.health - d, Fire(a, Ability(def), KillCredit(a, Some(t), t.health - d)), r.units)
    && Recorded(s, t.pos, t.health - d, [], r)
  }

  function CommitDeadeye(s: CombatState, a: Unit, t: Unit, def: AbilityDef): (r: CombatState)
    requires WellFormedGrid(s.grid)
    ensures DeadeyeOutcome(s, a, t, def, DeadeyeDamage(a.attackDamage, DamagePercent(def.effects), CoverBenefit(a.pos, t.pos, s.grid)), r)
  {
    Shoot(s, AddMessage(s.log, MSG_DEADEYE), a, t, Ability(def),
          t.health - DeadeyeDamage(a.attackDamage, DamagePercent(def.effects), CoverBenefit(a.pos, t.pos, s.grid)), [], [])
  }

  // ----- clicks -----

  /** What the click hit first: a tile, a unit, an obstacle, or nothing of interest. */
  datatype Click = TileClick(p: Position) | UnitClick(id: string) | ObstacleClick | BackgroundClick

  /** Cancelling the pending action: a message, highlights cleared, nothing pending. */
  function Cancel(s: CombatState, m: string): (r: CombatState)
    ensures r == s.(log := AddMessage(s.log, m), grid := WithoutHighlights(s.grid), units := NoneTargetable(s.units), pending := None)
    ensures StateOk(s) ==> StateOk(r)
  {
    var r := ClearAllHighlights(WithMessage(s, m)).(pending := None);
    Retargeted(s.units, r.units);
    r
  }

  /** A refusal: only the message is logged. */
  function Refuse(s: CombatState, m: string): (r: CombatState)
    ensures r == s.(log := AddMessage(s.log, m))
    ensures StateOk(s) ==> StateOk(r)
  {
    var r := WithMessage(s, m);
    assert SelectedIndex(r) == SelectedIndex(s);
    r
  }

  /** A unit click that commits nothing: select a living player unit in the player's turn, else explain. */
  function ClickSelect(s: CombatState, target: Option<Unit>): (r: CombatState)
    ensures target.None? ==> r == s
    ensures target.Some? && target.value.allegiance == Player && s.currentTurn == Player && target.value.health > 0 ==>
      r.selected == Some(target.value.id) && r.pending == None && r.units == (if s.pending.Some? then NoneTargetable(s.units) else s.units)
    ensures target.Some? && !(target.value.allegiance == Player && s.currentTurn == Player && target.value.health > 0) ==>
      r.selected == s.selected && r.pending == None && r.units == (if s.pending.Some? then NoneTargetable(s.units) else s.units)
    ensures StateOk(s) ==> StateOk(r)
  {
    match target
    case None => s
    case Some(u) =>
      if u.allegiance == Player && s.currentTurn == Player && u.health > 0 then
        if s.pending.Some? then Cancel(s, MSG_SWITCHED).(selected := Some(u.id))
        else WithMessage(s.(selected := Some(u.id)), MSG_SELECTED)
      else
        var s1 := WithMessage(s, MSG_NOT_SELECTABLE);
        if s.pending.Some? then Cancel(s1, MSG_CANCELLED) else s1
  }

  /** handleCanvasClick for the first object hit, past the handler's own guard. */
  function HandleClick(s: CombatState, c: Click): (r: CombatState)
    requires WellFormedGrid(s.grid)
    requires c.TileClick? ==> InBounds(c.p)
    ensures r.currentTurn == s.currentTurn && r.turnNumber == s.turnNumber
    ensures c.TileClick? && !(s.pending == Some(PendingMove) && Selected(s).Some?) ==> r == s
    ensures c.BackgroundClick? && s.pending.None? ==> r == s
    ensures c.ObstacleClick? || c.BackgroundClick? ==> r.pending == None
  {
    var sel := Selected(s);
    match c
    case TileClick(p) =>
      if s.pending == Some(PendingMove) && sel.Some? then
        if MoveAccepted(s, sel.value, p) then CommitMove(s, sel.value, p)
        else WithMessage(s, MSG_CANNOT_MOVE)
      else s
    case UnitClick(id) =>
      var target := FindUnit(s.units, id);
      if s.pending == Some(PendingAttack) && sel.Some? then
        if target.Some? && target.value.allegiance != sel.value.allegiance && target.value.targetable then
          CommitAttack(s, sel.value, target.value)
        else if target.Some? && target.value.allegiance == sel.value.allegiance then WithMessage(s, MSG_FRIENDLY)
        else WithMessage(s, MSG_INVALID_TARGET)
      else if s.pending.Some? && s.pending.value.PendingAbility? then
        var aid := s.pending.value.abilityId;
        if sel.Some? && aid in ALL_ABILITIES && target.Some? && target.value.targetable then
          var def := ALL_ABILITIES[aid];
          if def.target == EnemyUnit && target.value.allegiance == Enemy && aid == "deadeye_shot" then
            CommitDeadeye(s, sel.value, target.value, def)
          else s
        else WithMessage(s, MSG_ABILITY_UNUSABLE)
      else ClickSelect(s, target)
    case ObstacleClick =>
      var s1 := WithMessage(s, MSG_OBSTACLE);
      if s.pending.Some? then Cancel(s1, MSG_CANCELLED) else s1
    case BackgroundClick =>
      if s.pending.Some? then Cancel(s, MSG_CANCELLED) else s
  }

  /**
   * The unit list after a click: unchanged, or unchanged up to targetability,
   * unless a move, an attack or a deadeye shot was committed, and only units
   * that were there before remain.
   */
  lemma ClickKeepsUnits(s: CombatState, c: Click)
    requires WellFormedGrid(s.grid)
    requires c.TileClick? ==> InBounds(c.p)
    requires !(s.pending == Some(PendingMove) && c.TileClick?)
    requires !(s.pending == Some(PendingAttack) && c.UnitClick?)
    requires !(s.pending.Some? && s.pending.value.PendingAbility? && c.UnitClick?)
    ensures HandleClick(s, c).units == s.units || HandleClick(s, c).units == NoneTargetable(s.units)
    ensures HandleClick(s, c).grid == s.grid || HandleClick(s, c).grid == WithoutHighlights(s.grid)
    ensures HandleClick(s, c).damageLog == s.damageLog && HandleClick(s, c).gameOver == s.gameOver
  {
  }

  /** Clicking the background or an obstacle always leaves nothing pending. */
  lemma CancelClicksClearPending(s: CombatState, c: Click)
    requires WellFormedGrid(s.grid)
    requires c.ObstacleClick? || c.BackgroundClick?
    ensures HandleClick(s, c).pending == None
    ensures s.pending.Some? ==> HandleClick(s, c).grid == WithoutHighlights(s.grid)
  {
  }

  /**
   * A tile clicked with a move pending: the move is committed exactly when
   * the tile is highlighted as reachable, walkable, free of obstacles and
   * within the unit's move speed, and then the unit stands there for one
   * action point; otherwise the click only logs that the unit cannot move
   * there, and the move stays pending.
   */
  lemma TileClickMoves(s: CombatState, k: nat, p: Position)
    requires WellFormedGrid(s.grid) && UniqueIds(s.units) && InBounds(p)
    requires s.pending == Some(PendingMove) && SelectedIndex(s) == Some(k)
    ensures var u := s.units[k];
      var r := HandleClick(s, TileClick(p));
      && (r.pending == None <==> MoveAccepted(s, u, p))
      && (MoveAccepted(s, u, p) ==>
            && r.units[k].pos == p && r.units[k].ap == u.ap - 1 && r.units[k].hasMoved
            && TileAt(r.grid, p).occupied && r.log == AddMessage(s.log, MSG_MOVED))
      && (!MoveAccepted(s, u, p) ==> r == s.(log := AddMessage(s.log, MSG_CANNOT_MOVE)))
  {
    MoveOutcome(s, k, p);
  }

  /**
   * A unit clicked with an attack pending: the attack is fired exactly at a
   * targetable unit of the other side, with the manual damage; a friendly
   * unit, an untargetable enemy or an unknown id only logs why, and the
   * attack stays pending.
   */
  lemma UnitClickAttacks(s: CombatState, k: nat, id: string)
    requires WellFormedGrid(s.grid)
    requires s.pending == Some(PendingAttack) && SelectedIndex(s) == Some(k)
    ensures var a := s.units[k];
      var t := FindUnit(s.units, id);
      var r := HandleClick(s, UnitClick(id));
      var fires := t.Some? && t.value.allegiance != a.allegiance && t.value.targetable;
      && (r.pending == None <==> fires)
      && (fires ==> AttackOutcome(s, a, t.value, ManualDamage(a, t.value, s.grid), r))
      && (!fires ==> r == s.(log := AddMessage(s.log, if t.Some? && t.value.allegiance == a.allegiance then MSG_FRIENDLY else MSG_INVALID_TARGET)))
  {
  }

  /**
   * A unit clicked with an ability pending: a known ability on a targetable
   * unit fires only when it is deadeye shot aimed at an enemy (any other
   * such ability changes nothing); an unknown ability or an untargetable
   * unit only logs that the ability cannot be used there.
   */
  lemma UnitClickUsesAbility(s: CombatState, k: nat, aid: string, id: string)
    requires WellFormedGrid(s.grid)
    requires s.pending == Some(PendingAbility(aid)) && SelectedIndex(s) == Some(k)
    ensures var a := s.units[k];
      var t := FindUnit(s.units, id);
      var r := HandleClick(s, UnitClick(id));
      var usable := aid in ALL_ABILITIES && t.Some? && t.value.targetable;
      var fires := usable && aid == "deadeye_shot" && ALL_ABILITIES[aid].target == EnemyUnit && t.value.allegiance == Enemy;
      && (fires ==> DeadeyeOutcome(s, a, t.value, ALL_ABILITIES[aid],
                                   DeadeyeDamage(a.attackDamage, DamagePercent(ALL_ABILITIES[aid].effects), CoverBenefit(a.pos, t.value.pos, s.grid)), r))
      && (usable && !fires ==> r == s)
      && (!usable ==> r == s.(log := AddMessage(s.log, MSG_ABILITY_UNUSABLE)))
  {
  }

  /**
   * A unit clicked with no attack or ability to aim: a living player unit is
   * selected in the player's turn, any other unit leaves the selection as
   * it was, an unknown id changes nothing, and a pending move is cancelled.
   */
  lemma UnitClickSelects(s: CombatState, id: string)
    requires WellFormedGrid(s.grid)
    requires !(s.pending == Some(PendingAttack) && Selected(s).Some?)
    requires !(s.pending.Some? && s.pending.value.PendingAbility?)
    ensures var t := FindUnit(s.units, id);
      var r := HandleClick(s, UnitClick(id));
      && (t.None? ==> r == s)
      && (t.Some? && t.value.allegiance == Player && s.currentTurn == Player && t.value.health > 0 ==> r.selected == Some(id))
      && (t.Some? && !(t.value.allegiance == Player && s.currentTurn == Player && t.value.health > 0) ==> r.selected == s.selected)
      && (t.Some? ==> r.pending == None && r.units == (if s.pending.Some? then NoneTargetable(s.units) else s.units))
  {
    if IndexOf(s.units, id).Some? {
      assert FindUnit(s.units, id).value.id == id;
    }
  }

  /** On the board, with health and action points within their bounds. */
  predicate Bounded(u: Unit)
  {
    InBounds(u.pos) && 0 <= u.health <= u.maxHealth && 0 <= u.ap <= u.maxAp
  }

  /** After a shot every unit but a destroyed target is still within its bounds. */
  lemma {:induction false} StruckBounded(us: seq<Unit>, i: nat, j: nat, k: nat, h: int, shot: Shot, kill: int)
    requires UnitsOk(us) && i < |us| && j < |us| && k < |us| && h <= us[j].health
    requires 0 <= Fire(us[i], shot, 0).ap <= us[i].ap
    requires k != j || h > 0 || i == j
    ensures Bounded(StruckUnits(us, us[i], us[j], h, shot, kill)[k])
  {
    StruckUnitsAt(us, us[i], us[j], h, shot, kill, k);
    UniqueIndexOf(us, i);
    UniqueIndexOf(us, j);
    UniqueIndexOf(us, k);
  }

  /** A shot leaves every unit on the board and within its bounds, the destroyed target gone. */
  lemma {:induction false} ShotKeepsUnitsOk(us: seq<Unit>, i: nat, j: nat, h: int, shot: Shot, kill: int)
    requires UnitsOk(us) && i < |us| && j < |us| && h <= us[j].health
    requires 0 <= Fire(us[i], shot, 0).ap <= us[i].ap
    ensures UnitsOk(Settled(StruckUnits(us, us[i], us[j], h, shot, kill), us[j].id, h))
  {
    var st := StruckUnits(us, us[i], us[j], h, shot, kill);
    StruckKeepsIds(us, us[i], us[j], h, shot, kill);
    if h <= 0 {
      DestroyedOk(us, i, j, h, shot, kill, st);
    } else {
      forall u | u in st ensures Bounded(u) {
        var k :| 0 <= k < |st| && st[k] == u;
        StruckBounded(us, i, j, k, h, shot, kill);
      }
      UntargetedOk(st);
    }
  }

  lemma {:induction false} StruckKeepsIds(us: seq<Unit>, a: Unit, t: Unit, h: int, shot: Shot, kill: int)
    requires UniqueIds(us)
    ensures UniqueIds(StruckUnits(us, a, t, h, shot, kill))
  {
    var st := StruckUnits(us, a, t, h, shot, kill);
    forall k | 0 <= k < |us| ensures st[k].id == us[k].id {
      StruckUnitsAt(us, a, t, h, shot, kill, k);
      StruckId(us[k], a, t, h, shot, kill);
    }
    SameIdsUnique(us, st);
  }

  lemma {:induction false} DestroyedOk(us: seq<Unit>, i: nat, j: nat, h: int, shot: Shot, kill: int, st: seq<Unit>)
    requires UnitsOk(us) && i < |us| && j < |us| && h <= 0
    requires 0 <= Fire(us[i], shot, 0).ap <= us[i].ap
    requires st == StruckUnits(us, us[i], us[j], h, shot, kill) && UniqueIds(st)
    ensures UnitsOk(NoneTargetable(RemoveDestroyed(st, us[j].id)))
  {
    var fin := RemoveDestroyed(st, us[j].id);
    RemoveDestroyedUnique(st, us[j].id);
    forall u | u in fin ensures Bounded(u) {
      SurvivorBounded(us, i, j, h, shot, kill, st, u);
    }
    UntargetedOk(fin);
  }

  /** A unit that survives the filter after a destroying shot is within its bounds. */
  lemma SurvivorBounded(us: seq<Unit>, i: nat, j: nat, h: int, shot: Shot, kill: int, st: seq<Unit>, u: Unit)
    requires UnitsOk(us) && i < |us| && j < |us| && h <= 0
    requires 0 <= Fire(us[i], shot, 0).ap <= us[i].ap
    requires st == StruckUnits(us, us[i], us[j], h, shot, kill)
    requires u in RemoveDestroyed(st, us[j].id)
    ensures Bounded(u)
  {
    RemoveDestroyedMembers(st, us[j].id, u);
    StruckUnitsAt(us, us[i], us[j], h, shot, kill, j);
    UniqueIndexOf(us, i);
    UniqueIndexOf(us, j);
    var k :| 0 <= k < |st| && st[k] == u;
    StruckBounded(us, i, j, k, h, shot, kill);
  }

  lemma {:induction false} UntargetedOk(units: seq<Unit>)
    requires UniqueIds(units) && forall u :: u in units ==> Bounded(u)
    ensures UnitsOk(NoneTargetable(units))
  {
    var r := NoneTargetable(units);
    SameIdsUnique(units, r);
    forall k | 0 <= k < |r| ensures Bounded(r[k]) {
      assert units[k] in units;
    }
  }

  /** The same, for the shooter and the target given as units of the list. */
  lemma {:induction false} ShotUnitsOk(us: seq<Unit>, a: Unit, t: Unit, h: int, shot: Shot, kill: int)
    requires UnitsOk(us) && a in us && t in us && h <= t.health && 0 <= Fire(a, shot, 0).ap <= a.ap
    ensures UnitsOk(Settled(StruckUnits(us, a, t, h, shot, kill), t.id, h))
  {
    var i :| 0 <= i < |us| && us[i] == a;
    var j :| 0 <= j < |us| && us[j] == t;
    ShotKeepsUnitsOk(us, i, j, h, shot, kill);
  }

  /** The same, whenever the shot is one the shooter can pay for. */
  lemma {:induction false} ShotUnitsOkWhen(us: seq<Unit>, a: Unit, t: Unit, h: int, shot: Shot, kill: int)
    ensures UnitsOk(us) && a in us && t in us && h <= t.health && 0 <= Fire(a, shot, 0).ap <= a.ap ==>
              UnitsOk(Settled(StruckUnits(us, a, t, h, shot, kill), t.id, h))
  {
    if UnitsOk(us) && a in us && t in us && h <= t.health && 0 <= Fire(a, shot, 0).ap <= a.ap {
      ShotUnitsOk(us, a, t, h, shot, kill);
    }
  }

  /** A committed move keeps the combat-state invariant. */
  lemma {:induction false} MoveKeepsStateOk(s: CombatState, a: Unit, p: Position)
    requires StateOk(s) && Selected(s) == Some(a) && a.ap >= 1 && InBounds(p)
    ensures StateOk(CommitMove(s, a, p))
  {
    var k := SelectedIndex(s).value;
    MoveOutcome(s, k, p);
    var r := CommitMove(s, a, p);
    assert forall i :: 0 <= i < |s.units| ==> r.units[i].id == s.units[i].id;
    SameIdsUnique(s.units, r.units);
  }

  /** A committed attack by a unit with an action point left keeps the combat-state invariant. */
  lemma {:induction false} AttackKeepsStateOk(s: CombatState, a: Unit, t: Unit)
    requires StateOk(s) && a in s.units && t in s.units && a.ap >= 1
    ensures StateOk(CommitAttack(s, a, t))
  {
  }

  /** A committed deadeye shot the unit can pay for keeps the combat-state invariant. */
  lemma {:induction false} DeadeyeKeepsStateOk(s: CombatState, a: Unit, t: Unit, def: AbilityDef)
    requires StateOk(s) && a in s.units && t in s.units && 0 <= def.apCost <= a.ap
    ensures StateOk(CommitDeadeye(s, a, t, def))
  {
  }

  /** Clicking a unit with an ability pending keeps the combat-state invariant. */
  lemma {:induction false} AbilityClickKeepsStateOk(s: CombatState, id: string)
    requires StateOk(s) && s.pending.Some? && s.pending.value.PendingAbility?
    ensures StateOk(HandleClick(s, UnitClick(id)))
  {
    var sel := Selected(s);
    var target := FindUnit(s.units, id);
    var aid := s.pending.value.abilityId;
    if sel.Some? && target.Some? && target.value.targetable {
      var def := ALL_ABILITIES[aid];
      if def.target == EnemyUnit && target.value.allegiance == Enemy && aid == "deadeye_shot" {
        AbilityCostsNonNegative();
        DeadeyeKeepsStateOk(s, sel.value, target.value, def);
      }
    } else {
      assert SelectedIndex(WithMessage(s, MSG_ABILITY_UNUSABLE)) == SelectedIndex(s);
    }
  }

  /** Clicking a unit with an attack pending keeps the combat-state invariant. */
  lemma {:induction false} AttackClickKeepsStateOk(s: CombatState, id: string)
    requires StateOk(s) && s.pending == Some(PendingAttack)
    ensures StateOk(HandleClick(s, UnitClick(id)))
  {
    var sel := Selected(s);
    var target := FindUnit(s.units, id);
    if sel.Some? && target.Some? && target.value.allegiance != sel.value.allegiance && target.value.targetable {
      AttackKeepsStateOk(s, sel.value, target.value);
    } else {
      assert SelectedIndex(WithMessage(s, MSG_FRIENDLY)) == SelectedIndex(s);
      assert SelectedIndex(WithMessage(s, MSG_INVALID_TARGET)) == SelectedIndex(s);
    }
  }

  /** Clicking a tile keeps the combat-state invariant. */
  lemma {:induction false} TileClickKeepsStateOk(s: CombatState, p: Position)
    requires StateOk(s) && InBounds(p)
    ensures StateOk(HandleClick(s, TileClick(p)))
  {
    var sel := Selected(s);
    if s.pending == Some(PendingMove) && sel.Some? && MoveAccepted(s, sel.value, p) {
      MoveKeepsStateOk(s, sel.value, p);
    } else {
      assert SelectedIndex(WithMessage(s, MSG_CANNOT_MOVE)) == SelectedIndex(s);
    }
  }

  /** Clicking a unit with neither an attack nor an ability pending keeps the combat-state invariant. */
  lemma {:induction false} SelectClickKeepsStateOk(s: CombatState, id: string)
    requires StateOk(s) && s.pending != Some(PendingAttack) && !(s.pending.Some? && s.pending.value.PendingAbility?)
    ensures StateOk(HandleClick(s, UnitClick(id)))
  {
    assert HandleClick(s, UnitClick(id)) == ClickSelect(s, FindUnit(s.units, id));
  }

  /** Every click keeps the combat-state invariant. */
  lemma {:induction false} ClickKeepsStateOk(s: CombatState, c: Click)
    requires StateOk(s) && (c.TileClick? ==> InBounds(c.p))
    ensures StateOk(HandleClick(s, c))
  {
    match c
    case TileClick(p) =>
      TileClickKeepsStateOk(s, p);
    case UnitClick(id) =>
      if s.pending == Some(PendingAttack) {
        AttackClickKeepsStateOk(s, id);
      } else if s.pending.Some? && s.pending.value.PendingAbility? {
        AbilityClickKeepsStateOk(s, id);
      } else {
        SelectClickKeepsStateOk(s, id);
      }
    case ObstacleClick =>
      assert SelectedIndex(WithMessage(s, MSG_OBSTACLE)) == SelectedIndex(s);
    case BackgroundClick =>
  }

  // ----- the action buttons (handleAction) -----

  datatype ActionKind = MoveAction | AttackAction | SkipAction

  /** A living unit is selected. */
  predicate CanAct(s: CombatState)
  {
    Selected(s).Some? && Selected(s).value.health > 0
  }

  /** A living unit with an action point left is selected. */
  predicate Ready(s: CombatState)
  {
    CanAct(s) && Selected(s).value.ap >= 1
  }

  /** `units.map(u => u.id === id ? {...u, actionPoints: 0, isTargetable: false} : {...u, isTargetable: false})`. */
  function Skipped(units: seq<Unit>, id: string): (r: seq<Unit>)
    ensures |r| == |units|
    ensures forall i {:trigger r[i]} :: 0 <= i < |units| ==>
      r[i] == if units[i].id == id then units[i].(ap := 0, targetable := false) else units[i].(targetable := false)
  {
    seq(|units|, i requires 0 <= i < |units| =>
      if units[i].id == id then units[i].(ap := 0, targetable := false) else units[i].(targetable := false))
  }

  /** Changing only which units are targetable keeps the unit invariant and every lookup by id. */
  lemma Retargeted(us: seq<Unit>, vs: seq<Unit>)
    requires |vs| == |us| && forall i :: 0 <= i < |us| ==> vs[i] == us[i].(targetable := vs[i].targetable)
    ensures UnitsOk(us) ==> UnitsOk(vs)
    ensures forall id :: IndexOf(vs, id) == IndexOf(us, id)
  {
    forall id ensures IndexOf(vs, id) == IndexOf(us, id) {
      SameIdsSameIndex(us, vs, id);
    }
    if UniqueIds(us) { SameIdsUnique(us, vs); }
  }

  /** Arming an action the selected unit can pay for, changing only targeting, keeps the invariant. */
  lemma ArmedOk(s: CombatState, r: CombatState, p: PendingAction)
    requires StateOk(s) && Selected(s).Some? && Selected(s).value.ap >= PendingCost(p)
    requires p.PendingAbility? ==> p.abilityId in ALL_ABILITIES
    requires WellFormedGrid(r.grid) && |r.log| <= MESSAGE_LOG_SIZE + 1
    requires r.selected == s.selected && r.pending == Some(p)
    requires |r.units| == |s.units| && forall i :: 0 <= i < |s.units| ==> r.units[i] == s.units[i].(targetable := r.units[i].targetable)
    ensures StateOk(r)
  {
    Retargeted(s.units, r.units);
    assert SelectedIndex(r) == SelectedIndex(s);
  }

  /** The message a refused action logs, or None when the action goes ahead. */
  function ActionRefusal(s: CombatState, act: ActionKind): Option<string>
  {
    if Selected(s).None? then Some(MSG_NO_UNIT)
    else if Selected(s).value.health <= 0 then Some(MSG_UNIT_DESTROYED)
    else if Selected(s).value.ap < 1 && act != SkipAction then Some(MSG_NO_AP)
    else None
  }

  /**
   * The state handleAction leaves, past the handler's own guard: choosing
   * move or attack arms it (the move or attack highlights shown, the action
   * pending), choosing the action already pending disarms it, skipping
   * spends the unit's remaining action points, and a refused action only
   * logs why.
   */
  function ActionResult(s: CombatState, act: ActionKind): (r: CombatState)
    requires WellFormedGrid(s.grid)
    ensures r.selected == s.selected && r.currentTurn == s.currentTurn && r.turnNumber == s.turnNumber
    ensures r.gameOver == s.gameOver && r.damageLog == s.damageLog && |r.units| == |s.units|
    ensures r.pending == match ActionRefusal(s, act)
      case Some(_) => s.pending
      case None =>
        if act == MoveAction && s.pending != Some(PendingMove) then Some(PendingMove)
        else if act == AttackAction && s.pending != Some(PendingAttack) then Some(PendingAttack)
        else None
  {
    match ActionRefusal(s, act)
    case Some(m) => Refuse(s, m)
    case None =>
      match act
      case MoveAction =>
        if s.pending == Some(PendingMove) then Cancel(s, MSG_MOVE_CANCELLED)
        else ArmMove(s, Selected(s).value)
      case AttackAction =>
        if s.pending == Some(PendingAttack) then Cancel(s, MSG_ATTACK_CANCELLED)
        else ArmAttack(s, Selected(s).value)
      case SkipAction => Skip(s, Selected(s).value)
  }

  /** Every outcome of an action keeps the combat-state invariant. */
  lemma ActionKeepsStateOk(s: CombatState, act: ActionKind)
    requires StateOk(s)
    ensures StateOk(ActionResult(s, act))
  {
    if ActionRefusal(s, act).None? {
      var u := Selected(s).value;
      assert u.ap >= 1 || act == SkipAction;
    }
  }

  /** Arming a move: the tiles the unit can reach are highlighted and the move is pending. */
  function ArmMove(s: CombatState, u: Unit): (r: CombatState)
    requires WellFormedGrid(s.grid)
    ensures StateOk(s) && Selected(s) == Some(u) && u.ap >= 1 ==> StateOk(r)
  {
    var r := s.(grid := MoveHighlightGrid(u, s.grid), units := NoneTargetable(s.units),
                pending := Some(PendingMove), log := AddMessage(s.log, MSG_MOVE_READY));
    if StateOk(s) && Selected(s) == Some(u) && u.ap >= 1 then ArmedOk(s, r, PendingMove); r else r
  }

  /** Arming an attack: the tiles in range are highlighted, exactly the units in reach become targetable, and the attack is pending. */
  function ArmAttack(s: CombatState, u: Unit): (r: CombatState)
    requires WellFormedGrid(s.grid)
    ensures StateOk(s) && Selected(s) == Some(u) && u.ap >= 1 ==> StateOk(r)
  {
    var r := s.(grid := AttackHighlightGrid(u, s.grid, None), units := MarkTargets(u, s.units, u.attackRange),
                pending := Some(PendingAttack), log := AddMessage(s.log, MSG_ATTACK_READY));
    if StateOk(s) && Selected(s) == Some(u) && u.ap >= 1 then ArmedOk(s, r, PendingAttack); r else r
  }

  /** Skipping: the unit's action points drop to zero, highlights are cleared and nothing is pending. */
  function Skip(s: CombatState, u: Unit): (r: CombatState)
    ensures StateOk(s) ==> StateOk(r)
  {
    var r := s.(grid := WithoutHighlights(s.grid), units := Skipped(s.units, u.id),
                pending := None, log := AddMessage(s.log, MSG_SKIP));
    if StateOk(s) then
      assert forall i :: 0 <= i < |s.units| ==> r.units[i].id == s.units[i].id;
      SameIdsUnique(s.units, r.units);
      r
    else r
  }

  /** handleAction, computing the attack highlights cell by cell as the source does. */
  method HandleAction(s: CombatState, act: ActionKind) returns (r: CombatState)
    requires WellFormedGrid(s.grid)
    ensures r == ActionResult(s, act)
  {
    var sel := Selected(s);
    if sel.None? {
      return Refuse(s, MSG_NO_UNIT);
    }
    var u := sel.value;
    if u.health <= 0 {
      return Refuse(s, MSG_UNIT_DESTROYED);
    }
    if u.ap < 1 && act != SkipAction {
      return Refuse(s, MSG_NO_AP);
    }
    match act {
      case MoveAction =>
        if s.pending == Some(PendingMove) {
          r := Cancel(s, MSG_MOVE_CANCELLED);
        } else {
          r := s.(grid := MoveHighlightGrid(u, s.grid), units := NoneTargetable(s.units),
                  pending := Some(PendingMove), log := AddMessage(s.log, MSG_MOVE_READY));
        }
      case AttackAction =>
        if s.pending == Some(PendingAttack) {
          r := Cancel(s, MSG_ATTACK_CANCELLED);
        } else {
          var grid, units := AttackHighlights(u, s.units, s.grid, None);
          r := s.(grid := grid, units := units, pending := Some(PendingAttack), log := AddMessage(s.log, MSG_ATTACK_READY));
        }
      case SkipAction =>
        r := s.(grid := WithoutHighlights(s.grid), units := Skipped(s.units, u.id),
                pending := None, log := AddMessage(s.log, MSG_SKIP));
    }
  }

  /** A refused action changes nothing but the log, which gains the reason. */
  lemma RefusedActionOnlyLogs(s: CombatState, act: ActionKind)
    requires WellFormedGrid(s.grid) && ActionRefusal(s, act).Some?
    ensures ActionResult(s, act) == s.(log := AddMessage(s.log, ActionRefusal(s, act).value))
    ensures !CanAct(s) || (Selected(s).value.ap < 1 && act != SkipAction)
  {
  }

  /** Choosing the action that is already pending disarms it and clears every highlight. */
  lemma ReChoosingDisarms(s: CombatState, act: ActionKind)
    requires WellFormedGrid(s.grid) && ActionRefusal(s, act).None?
    requires (act == MoveAction && s.pending == Some(PendingMove)) || (act == AttackAction && s.pending == Some(PendingAttack))
    ensures ActionResult(s, act).pending == None
    ensures ActionResult(s, act).units == NoneTargetable(s.units) && ActionResult(s, act).grid == WithoutHighlights(s.grid)
  {
  }

  /**
   * Choosing an action that is not pending arms it: a move highlights
   * exactly the reachable free tiles, an attack makes exactly the units in
   * range targetable.
   */
  lemma ChoosingArms(s: CombatState, act: ActionKind, p: Position, k: nat)
    requires WellFormedGrid(s.grid) && ActionRefusal(s, act).None? && InBounds(p) && k < |s.units|
    requires (act == MoveAction && s.pending != Some(PendingMove)) || (act == AttackAction && s.pending != Some(PendingAttack))
    ensures act == MoveAction ==>
      && ActionResult(s, act).pending == Some(PendingMove)
      && (TileAt(ActionResult(s, act).grid, p).highlight == Some(MoveHighlight) <==>
           CanMoveTo(Selected(s).value, TileAt(s.grid, p), p))
    ensures act == AttackAction ==>
      && ActionResult(s, act).pending == Some(PendingAttack)
      && (ActionResult(s, act).units[k].targetable <==> Targetable(Selected(s).value, s.units[k], Selected(s).value.attackRange))
  {
  }

  /** Skipping leaves the selected unit without action points and every other unit's points as they were. */
  lemma SkipSpendsAll(s: CombatState, k: nat)
    requires WellFormedGrid(s.grid) && CanAct(s) && k < |s.units|
    ensures ActionResult(s, SkipAction).pending == None
    ensures ActionResult(s, SkipAction).units[k].ap == if s.units[k].id == Selected(s).value.id then 0 else s.units[k].ap
  {
  }

  // ----- ability requests (handleAbilityActionSelected) -----

  /** The unit's status entry for an ability (`activeAbilities.find`). */
  function FindStatus(abilities: seq<AbilityStatus>, id: string): (r: Option<AbilityStatus>)
    ensures r.Some? ==> r.value in abilities && r.value.abilityId == id
    ensures r.None? ==> forall a :: a in abilities ==> a.abilityId != id
  {
    if |abilities| == 0 then None
    else if abilities[0].abilityId == id then Some(abilities[0])
    else FindStatus(abilities[1..], id)
  }

  /** The ability's status entry on the unit still counts down. */
  predicate CoolingDown(u: Unit, id: string)
  {
    FindStatus(u.abilities, id).Some? && FindStatus(u.abilities, id).value.cooldown > 0
  }

  /** The temporary effect one effect of a self-targeted ability grants, if any. */
  function Granted(id: string, e: AbilityEffect): Option<TempEffect>
  {
    if e.kind == TemporaryStatBoost && e.stat.Some? && e.value != 0 then
      Some(TempEffect(TemporaryStatBoost, e.value, e.stat, id, true, false, if e.duration != 0 then e.duration else 1, false))
    else if e.kind == DamageModifier && e.value != 0 && e.nextAttackOnly then
      Some(TempEffect(DamageModifier, e.value, None, id, true, false, 1, true))
    else None
  }

  /** The temporary effects a self-targeted ability grants, in the order of its effect list. */
  function GrantedEffects(id: string, effects: seq<AbilityEffect>): (r: seq<TempEffect>)
    ensures |r| <= |effects|
    ensures forall t :: t in r ==> t.source == id && t.active && !t.applied
  {
    if |effects| == 0 then []
    else (match Granted(id, effects[0]) case Some(t) => [t] case None => []) + GrantedEffects(id, effects[1..])
  }

  /** One log message per granted effect. */
  function UseMessages(granted: seq<TempEffect>): (r: seq<string>)
    ensures |r| == |granted|
  {
    seq(|granted|, _ => MSG_ABILITY_USED)
  }

  /** The unit after using a self-targeted ability: the granted effects added, the cost paid, the cooldown started. */
  function UseSelf(u: Unit, id: string, def: AbilityDef): Unit
  {
    u.(effects := u.effects + GrantedEffects(id, def.effects), ap := u.ap - def.apCost,
       abilities := SetCooldown(u.abilities, id, def.cooldownTurns))
  }

  /** The message a refused ability request logs, or None when the request goes ahead. */
  function AbilityRefusal(s: CombatState, id: string): Option<string>
  {
    if Selected(s).None? || id !in ALL_ABILITIES then Some(MSG_ABILITY_UNAVAILABLE)
    else if Selected(s).value.ap < ALL_ABILITIES[id].apCost then Some(MSG_NOT_ENOUGH_AP)
    else if CoolingDown(Selected(s).value, id) then Some(MSG_COOLDOWN)
    else if ALL_ABILITIES[id].requiresNoPriorMove && Selected(s).value.hasMoved then Some(MSG_MOVED_ALREADY)
    else None
  }

  lemma AbilityCostsNonNegative()
    ensures forall id :: id in ALL_ABILITIES ==> ALL_ABILITIES[id].apCost >= 0
  {
  }

  /** Using a self-targeted ability: every highlight cleared, the user updated in place, nothing pending. */
  function UseSelfAbility(s: CombatState, k: nat, id: string, def: AbilityDef): (r: CombatState)
    requires k < |s.units|
    ensures StateOk(s) && SelectedIndex(s) == Some(k) && s.units[k].ap >= def.apCost >= 0 ==> StateOk(r)
  {
    var units := NoneTargetable(s.units);
    var granted := GrantedEffects(id, def.effects);
    var r := s.(grid := WithoutHighlights(s.grid), units := units[k := UseSelf(units[k], id, def)],
                pending := None, log := Trim(s.log + UseMessages(granted)));
    if StateOk(s) && SelectedIndex(s) == Some(k) && s.units[k].ap >= def.apCost >= 0 then
      assert forall i :: 0 <= i < |s.units| ==> r.units[i].id == s.units[i].id;
      SameIdsUnique(s.units, r.units);
      r
    else r
  }

  /** Arming an ability aimed at an enemy: the tiles in its range are highlighted and exactly the units in reach become targetable. */
  function ArmAbility(s: CombatState, u: Unit, id: string, def: AbilityDef): (r: CombatState)
    requires WellFormedGrid(s.grid)
    ensures StateOk(s) && Selected(s) == Some(u) && id in ALL_ABILITIES && u.ap >= ALL_ABILITIES[id].apCost ==> StateOk(r)
  {
    var r := s.(grid := AttackHighlightGrid(u, s.grid, Some(def)), units := MarkTargets(u, s.units, TargetRange(u, Some(def))),
                pending := Some(PendingAbility(id)), log := AddMessage(s.log, MSG_ABILITY_READY));
    if StateOk(s) && Selected(s) == Some(u) && id in ALL_ABILITIES && u.ap >= ALL_ABILITIES[id].apCost then
      ArmedOk(s, r, PendingAbility(id)); r
    else r
  }

  /**
   * The state handleAbilityActionSelected leaves, past the handler's own
   * guard: a refused request only logs why; requesting the ability already
   * pending disarms it; a self-targeted ability takes effect at once; an
   * ability aimed at an enemy is armed; any other target type is reported
   * as unsupported and leaves nothing pending.
   */
  function AbilityResult(s: CombatState, id: string): (r: CombatState)
    requires WellFormedGrid(s.grid)
    ensures r.selected == s.selected && r.currentTurn == s.currentTurn && r.turnNumber == s.turnNumber
    ensures r.gameOver == s.gameOver && r.damageLog == s.damageLog && |r.units| == |s.units|
    ensures r.pending ==
      if AbilityRefusal(s, id).Some? then s.pending
      else if s.pending != Some(PendingAbility(id)) && ALL_ABILITIES[id].target == EnemyUnit then Some(PendingAbility(id))
      else None
  {
    match AbilityRefusal(s, id)
    case Some(m) => Refuse(s, m)
    case None =>
      var def := ALL_ABILITIES[id];
      if s.pending == Some(PendingAbility(id)) then Cancel(s, MSG_ABILITY_CANCELLED)
      else if def.target == SelfTarget then UseSelfAbility(s, SelectedIndex(s).value, id, def)
      else if def.target == EnemyUnit then ArmAbility(s, Selected(s).value, id, def)
      else Cancel(s, MSG_TARGET_UNSUPPORTED)
  }

  /** handleAbilityActionSelected, computing the target highlights cell by cell as the source does. */
  method RequestAbility(s: CombatState, id: string) returns (r: CombatState)
    requires WellFormedGrid(s.grid)
    ensures r == AbilityResult(s, id)
  {
    var sel := Selected(s);
    if sel.None? || id !in ALL_ABILITIES {
      return Refuse(s, MSG_ABILITY_UNAVAILABLE);
    }
    var u := sel.value;
    var def := ALL_ABILITIES[id];
    if u.ap < def.apCost {
      return Refuse(s, MSG_NOT_ENOUGH_AP);
    }
    var status := FindStatus(u.abilities, id);
    if status.Some? && status.value.cooldown > 0 {
      return Refuse(s, MSG_COOLDOWN);
    }
    if def.requiresNoPriorMove && u.hasMoved {
      return Refuse(s, MSG_MOVED_ALREADY);
    }
    if s.pending == Some(PendingAbility(id)) {
      return Cancel(s, MSG_ABILITY_CANCELLED);
    }
    if def.target == SelfTarget {
      r := UseSelfAbility(s, SelectedIndex(s).value, id, def);
    } else if def.target == EnemyUnit {
      var grid, units := AttackHighlights(u, s.units, s.grid, Some(def));
      r := s.(grid := grid, units := units, pending := Some(PendingAbility(id)), log := AddMessage(s.log, MSG_ABILITY_READY));
    } else {
      r := Cancel(s, MSG_TARGET_UNSUPPORTED);
    }
  }

  /** Every outcome of an ability request keeps the combat-state invariant. */
  lemma AbilityKeepsStateOk(s: CombatState, id: string)
    requires StateOk(s)
    ensures StateOk(AbilityResult(s, id))
  {
    if AbilityRefusal(s, id).None? {
      AbilityCostsNonNegative();
    }
  }

  /**
   * A request refused for want of action points, because the ability is
   * cooling down, or because the unit has moved, changes no unit and
   * nothing else but the log.
   */
  lemma RefusedAbilityOnlyLogs(s: CombatState, id: string)
    requires WellFormedGrid(s.grid) && AbilityRefusal(s, id).Some?
    ensures AbilityResult(s, id) == s.(log := AddMessage(s.log, AbilityRefusal(s, id).value))
    ensures Selected(s).Some? && id in ALL_ABILITIES ==>
      Selected(s).value.ap < ALL_ABILITIES[id].apCost || CoolingDown(Selected(s).value, id)
      || (ALL_ABILITIES[id].requiresNoPriorMove && Selected(s).value.hasMoved)
  {
  }

  /** Requesting the pending ability again disarms it. */
  lemma ReRequestingDisarms(s: CombatState, id: string)
    requires WellFormedGrid(s.grid) && AbilityRefusal(s, id).None? && s.pending == Some(PendingAbility(id))
    ensures AbilityResult(s, id).pending == None
    ensures AbilityResult(s, id).units == NoneTargetable(s.units) && AbilityResult(s, id).grid == WithoutHighlights(s.grid)
  {
  }

  /**
   * A self-targeted ability takes effect on the selected unit alone: it pays
   * the ability's cost, the ability's cooldown starts at its full length,
   * and the granted effects are added; every other unit only loses its
   * targeting.
   */
  lemma SelfAbilityPays(s: CombatState, id: string, i: nat)
    requires WellFormedGrid(s.grid) && AbilityRefusal(s, id).None? && s.pending != Some(PendingAbility(id))
    requires ALL_ABILITIES[id].target == SelfTarget && i < |s.units|
    ensures |AbilityResult(s, id).units| == |s.units|
    ensures Some(i) == SelectedIndex(s) ==>
      && AbilityResult(s, id).units[i].ap == s.units[i].ap - ALL_ABILITIES[id].apCost
      && (forall a :: a in AbilityResult(s, id).units[i].abilities && a.abilityId == id ==> a.cooldown == ALL_ABILITIES[id].cooldownTurns)
      && AbilityResult(s, id).units[i].effects == s.units[i].effects + GrantedEffects(id, ALL_ABILITIES[id].effects)
    ensures Some(i) != SelectedIndex(s) ==> AbilityResult(s, id).units[i] == s.units[i].(targetable := false)
    ensures AbilityResult(s, id).pending == None
  {
  }

  /** Once used, an ability with a cooldown refuses a second request until the cooldown has run down. */
  lemma UsedAbilityCoolsDown(u: Unit, id: string, def: AbilityDef)
    requires def.cooldownTurns > 0 && FindStatus(u.abilities, id).Some?
    ensures CoolingDown(UseSelf(u, id, def), id)
  {
    CooldownFound(u.abilities, id, def.cooldownTurns);
  }

  lemma {:induction false} CooldownFound(abilities: seq<AbilityStatus>, id: string, cd: int)
    requires FindStatus(abilities, id).Some?
    ensures FindStatus(SetCooldown(abilities, id, cd), id) == Some(FindStatus(abilities, id).value.(cooldown := cd))
    decreases |abilities|
  {
    var r := SetCooldown(abilities, id, cd);
    assert r[0] == if abilities[0].abilityId == id then abilities[0].(cooldown := cd) else abilities[0];
    if abilities[0].abilityId != id {
      CooldownFound(abilities[1..], id, cd);
      assert SetCooldown(abilities, id, cd)[1..] == SetCooldown(abilities[1..], id, cd);
    }
  }

  /** Steady aim arms the next attack of a unit without unspent aim with its 10 extra damage. */
  lemma SteadyAimArmsNextAttack(u: Unit)
    requires FirstSteadyAim(u.effects).None?
    ensures SteadyAimBonus(UseSelf(u, "steady_aim", STEADY_AIM)) == 10
  {
    var granted := GrantedEffects("steady_aim", STEADY_AIM.effects);
    assert granted == [TempEffect(DamageModifier, 10, None, "steady_aim", true, false, 1, true)];
    FirstSteadyAimAppend(u.effects, granted);
  }

  /** Blitz lets a unit without an active blitz move two tiles further, both for the highlight and for the click. */
  lemma BlitzAddsTwoTiles(u: Unit)
    requires FirstBlitzEffect(u.effects).None?
    ensures EffectiveMoveSpeed(UseSelf(u, "blitz", BLITZ)) == u.moveSpeed + 2
    ensures ClickMoveSpeed(UseSelf(u, "blitz", BLITZ)) == u.moveSpeed + 2
  {
    var granted := GrantedEffects("blitz", BLITZ.effects);
    assert granted == [TempEffect(TemporaryStatBoost, 2, Some(MoveSpeed), "blitz", true, false, 1, false)];
    FirstBlitzEffectAppend(u.effects, granted);
    assert forall e :: e in u.effects ==> !IsActiveBlitz(e);
    FirstBlitzAppend(u.effects, granted);
  }

  lemma {:induction false} FirstSteadyAimAppend(xs: seq<TempEffect>, ys: seq<TempEffect>)
    requires FirstSteadyAim(xs).None?
    ensures FirstSteadyAim(xs + ys) == FirstSteadyAim(ys)
    decreases |xs|
  {
    if |xs| > 0 {
      assert (xs + ys)[1..] == xs[1..] + ys;
      FirstSteadyAimAppend(xs[1..], ys);
    } else {
      assert xs + ys == ys;
    }
  }

  lemma {:induction false} FirstBlitzEffectAppend(xs: seq<TempEffect>, ys: seq<TempEffect>)
    requires FirstBlitzEffect(xs).None?
    ensures FirstBlitzEffect(xs + ys) == FirstBlitzEffect(ys)
    decreases |xs|
  {
    if |xs| > 0 {
      assert (xs + ys)[1..] == xs[1..] + ys;
      FirstBlitzEffectAppend(xs[1..], ys);
    } else {
      assert xs + ys == ys;
    }
  }

  lemma {:induction false} FirstBlitzAppend(xs: seq<TempEffect>, ys: seq<TempEffect>)
    requires FirstBlitz(xs).None?
    ensures FirstBlitz(xs + ys) == FirstBlitz(ys)
    decreases |xs|
  {
    if |xs| > 0 {
      assert (xs + ys)[1..] == xs[1..] + ys;
      FirstBlitzAppend(xs[1..], ys);
    } else {
      assert xs + ys == ys;
    }
  }

  // ----- ending the player turn (handleEndTurn) -----

  /** An effect survives the end of the player turn unless it only lasted for this turn. */
  predicate OutlastsTurn(e: TempEffect)
  {
    e.duration > 1 || !e.active
  }

  /** The effects left when the player turn ends: the surviving ones, none of them active any more. */
  function EndTurnEffects(effects: seq<TempEffect>): (r: seq<TempEffect>)
    ensures |r| <= |effects|
    ensures forall e :: e in r ==> !e.active
    ensures forall e :: e in r <==> exists f :: f in effects && OutlastsTurn(f) && e == f.(active := false)
  {
    if |effects| == 0 then []
    else
      assert effects == [effects[0]] + effects[1..];
      (if OutlastsTurn(effects[0]) then [effects[0].(active := false)] else []) + EndTurnEffects(effects[1..])
  }

  /** A unit as the end of the player turn leaves it. */
  function EndTurnUnit(u: Unit): Unit
  {
    u.(ap := if u.allegiance == Enemy then u.maxAp else u.ap, effects := EndTurnEffects(u.effects),
       targetable := false, hasMoved := false)
  }

  function EndTurnUnits(units: seq<Unit>): (r: seq<Unit>)
    ensures |r| == |units| && forall i {:trigger r[i]} :: 0 <= i < |units| ==> r[i] == EndTurnUnit(units[i])
  {
    seq(|units|, i requires 0 <= i < |units| => EndTurnUnit(units[i]))
  }

  /**
   * What the end of the player turn does to one unit: an enemy's action
   * points are refilled, no unit counts as moved, effects of this turn only
   * are dropped and the rest made inactive, and nothing else changes - in
   * particular no cooldown.
   */
  predicate EndedTurn(u: Unit, v: Unit)
  {
    && v.ap == (if u.allegiance == Enemy then u.maxAp else u.ap)
    && !v.hasMoved && !v.targetable
    && (forall e :: e in v.effects ==> !e.active)
    && (forall e :: e in u.effects && OutlastsTurn(e) ==> e.(active := false) in v.effects)
    && (forall e :: e in v.effects ==> exists f :: f in u.effects && OutlastsTurn(f) && e == f.(active := false))
    && v.abilities == u.abilities && v.health == u.health && v.pos == u.pos && v.id == u.id
  }

  /**
   * handleEndTurn past its guard: the enemy turn begins under the same turn
   * number, with nothing selected or pending and highlights cleared; two
   * messages are logged, the second without trimming the log.
   */
  function EndTurn(s: CombatState): (r: CombatState)
    ensures r.currentTurn == Enemy && r.turnNumber == s.turnNumber
    ensures r.selected == None && r.pending == None
    ensures |r.units| == |s.units|
    ensures forall i :: 0 <= i < |s.units| ==> EndedTurn(s.units[i], r.units[i])
    ensures r.log == AddMessage(s.log, MSG_PLAYER_TURN_END) + [MSG_ENEMY_TURN_START]
    ensures r.damageLog == s.damageLog && r.gameOver == s.gameOver && r.delegated == s.delegated
  {
    s.(grid := WithoutHighlights(s.grid), units := EndTurnUnits(s.units), currentTurn := Enemy,
       selected := None, pending := None, log := AddMessage(s.log, MSG_PLAYER_TURN_END) + [MSG_ENEMY_TURN_START])
  }

  /** Ending the player turn keeps the combat-state invariant; the log may then hold eleven entries. */
  lemma EndTurnKeepsStateOk(s: CombatState)
    requires StateOk(s)
    ensures StateOk(EndTurn(s))
  {
    var r := EndTurn(s);
    assert forall i :: 0 <= i < |s.units| ==> r.units[i].id == s.units[i].id;
    SameIdsUnique(s.units, r.units);
  }

  // ----- delegating the player turn (handleToggleDelegateCombat) -----

  const MSG_DELEGATED := "player turn delegated to the AI"
  const MSG_MANUAL := "player turn back under manual control"

  /** The state change of the delegate toggle: the flag flips, selection and pending action are dropped, highlights cleared. */
  function ToggleDelegate(s: CombatState): (r: CombatState)
    ensures r.delegated == !s.delegated && r.selected == None && r.pending == None
    ensures r.units == NoneTargetable(s.units) && r.grid == WithoutHighlights(s.grid)
    ensures r.log == AddMessage(s.log, if r.delegated then MSG_DELEGATED else MSG_MANUAL)
    ensures r.currentTurn == s.currentTurn && r.turnNumber == s.turnNumber
    ensures r.gameOver == s.gameOver && r.damageLog == s.damageLog
  {
    WithMessage(ClearAllHighlights(s.(delegated := !s.delegated, selected := None, pending := None)),
                if !s.delegated then MSG_DELEGATED else MSG_MANUAL)
  }

  /** Toggling twice restores the flag; units and grid lose only targeting and highlights. */
  lemma ToggleTwice(s: CombatState)
    ensures ToggleDelegate(ToggleDelegate(s)).delegated == s.delegated
    ensures ToggleDelegate(ToggleDelegate(s)).units == NoneTargetable(s.units)
    ensures ToggleDelegate(ToggleDelegate(s)).grid == WithoutHighlights(s.grid)
  {
    var u1 := NoneTargetable(s.units);
    assert NoneTargetable(u1) == u1;
    var g1 := WithoutHighlights(s.grid);
    assert WithoutHighlights(g1) == g1 by {
      forall x | 0 <= x < |g1| ensures WithoutHighlights(g1)[x] == g1[x] { }
    }
  }

  /** The delegate toggle keeps the combat-state invariant. */
  lemma ToggleKeepsStateOk(s: CombatState)
    requires StateOk(s)
    ensures StateOk(ToggleDelegate(s))
  {
    Retargeted(s.units, NoneTargetable(s.units));
  }

  // ----- the end-of-battle summary (handleReturnToMenuViaCombatEnd) -----

  /** What a surviving player unit reports back to the strategic layer. */
  datatype Survivor = Survivor(id: string, templateId: string, name: string, experience: int,
                               rank: string, equipment: Equipment, kills: int)

  datatype CombatResult = CombatResult(outcome: GameOverState, enemiesDefeated: int, unitsLost: int,
                                       survivors: seq<Survivor>)

  predicate LivingPlayer(u: Unit)
  {
    u.allegiance == Player && u.health > 0
  }

  function AsSurvivor(u: Unit): Survivor
  {
    Survivor(u.id, u.templateId, u.name, u.experience, u.rank, u.equipment, u.kills)
  }

  /** The living player units, in list order, as survivor records. */
  function Survivors(units: seq<Unit>): (r: seq<Survivor>)
    ensures |r| == CountAlive(units, Player)
    ensures forall u :: u in units && LivingPlayer(u) ==> AsSurvivor(u) in r
    ensures forall x :: x in r ==> exists u :: u in units && LivingPlayer(u) && x == AsSurvivor(u)
  {
    if |units| == 0 then []
    else
      var init := units[..|units| - 1];
      var last := units[|units| - 1];
      assert units == init + [last];
      Survivors(init) + (if LivingPlayer(last) then [AsSurvivor(last)] else [])
  }

  /**
   * The summary handed to the strategic layer when the battle ends: the
   * outcome, the enemies defeated and player units lost against the counts
   * at deployment, and every living player unit as a survivor.
   */
  function BattleSummary(s: CombatState, initialPlayers: int, initialEnemies: int): (r: CombatResult)
    ensures r.outcome == s.gameOver && r.survivors == Survivors(s.units)
    ensures r.unitsLost == initialPlayers - CountAlive(s.units, Player)
    ensures r.enemiesDefeated == initialEnemies - CountAlive(s.units, Enemy)
  {
    var survivors := Survivors(s.units);
    CombatResult(s.gameOver, initialEnemies - CountAlive(s.units, Enemy), initialPlayers - |survivors|, survivors)
  }
}
