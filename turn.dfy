// The automated turn as a whole (executeAutomatedTurn, from the working
// copies to the committed state): the acting units take their turns one
// after another, then the turn is handed to the other side, unless the
// player took back control in between or the battle ended.
module Turn {
  import opened Types
  import opened Rules
  import opened Sorting
  import opened Combat
  import opened AutoTurn

  const MSG_AI_HALTED := "unit halted: delegation switched off"
  const MSG_AI_MANUAL := "switching to manual control"
  const MSG_AI_VICTORY := "player victory"
  const MSG_AI_DEFEAT := "mission failed"
  const MSG_AI_IDLE := "side ends its turn without acting"
  const MSG_AI_TURN_END := "turn ends"
  const MSG_AI_TURN_START := "turn begins"

  // ----- the units taking part -----

  /** `actingUnitsOfAllegiance`: the living units of the side with points left, in list order. */
  function Actors(units: seq<Unit>, side: Allegiance): (r: seq<Unit>)
    ensures |r| <= |units|
    ensures forall u :: u in r <==> u in units && u.allegiance == side && u.health > 0 && u.ap > 0
  {
    if |units| == 0 then []
    else
      var last := units[|units| - 1];
      assert units == units[..|units| - 1] + [last];
      Actors(units[..|units| - 1], side) + (if last.allegiance == side && last.health > 0 && last.ap > 0 then [last] else [])
  }

  /** `survivingUnitsAfterActions`: the units with health left, in list order. */
  function Living(units: seq<Unit>): (r: seq<Unit>)
    ensures |r| <= |units|
    ensures forall u :: u in r <==> u in units && u.health > 0
  {
    if |units| == 0 then []
    else
      var last := units[|units| - 1];
      assert units == units[..|units| - 1] + [last];
      Living(units[..|units| - 1]) + (if last.health > 0 then [last] else [])
  }

  lemma {:induction false} LivingUnique(units: seq<Unit>)
    requires UniqueIds(units)
    ensures UniqueIds(Living(units))
    decreases |units|
  {
    if |units| > 0 {
      var init := units[..|units| - 1];
      var last := units[|units| - 1];
      UniqueInit(units);
      LivingUnique(init);
      var rest := Living(init);
      if last.health > 0 {
        forall x | 0 <= x < |rest| ensures rest[x].id != last.id {
          assert rest[x] in rest;
          EarlierIdDiffers(units, rest[x]);
        }
        UniqueSnoc(rest, last);
        assert Living(units) == rest + [last];
      } else {
        assert Living(units) == rest + [];
        assert rest + [] == rest;
      }
    }
  }

  lemma EarlierIdDiffers(units: seq<Unit>, u: Unit)
    requires UniqueIds(units) && |units| > 0 && u in units[..|units| - 1]
    ensures u.id != units[|units| - 1].id
  {
    var m :| 0 <= m < |units| - 1 && units[m] == u;
    UniqueIndexOf(units, m);
    UniqueIndexOf(units, |units| - 1);
  }

  /** Losing units keeps the list well formed. */
  lemma LivingOk(units: seq<Unit>)
    requires UnitsOk(units)
    ensures UnitsOk(Living(units))
  {
    LivingUnique(units);
    var r := Living(units);
    forall i | 0 <= i < |r| ensures InBounds(r[i].pos) && 0 <= r[i].health <= r[i].maxHealth && 0 <= r[i].ap <= r[i].maxAp {
      assert r[i] in r;
      var m :| 0 <= m < |units| && units[m] == r[i];
    }
  }

  /** The battle is decided by who is alive, so dropping the dead changes nothing. */
  lemma LivingSameOutcome(units: seq<Unit>, prev: GameOverState)
    ensures GameOverStatus(Living(units), prev) == GameOverStatus(units, prev)
  {
    GameOverStatusMeaning(units, prev);
    GameOverStatusMeaning(Living(units), prev);
    forall side ensures AnyAlive(Living(units), side) == AnyAlive(units, side) {
      if AnyAlive(units, side) {
        var u :| u in units && u.allegiance == side && u.health > 0;
        assert u in Living(units);
      }
    }
  }

  // ----- handing the turn over -----

  /** Effects with more than one turn left lose a turn; the others end. */
  function Countdown(effects: seq<TempEffect>): (r: seq<TempEffect>)
    ensures |r| <= |effects|
    ensures forall e :: e in r <==> exists f :: f in effects && f.duration > 1 && e == f.(duration := f.duration - 1)
  {
    if |effects| == 0 then []
    else
      var last := effects[|effects| - 1];
      var init := effects[..|effects| - 1];
      assert effects == init + [last];
      var rest := Countdown(init);
      var r := rest + (if last.duration > 1 then [last.(duration := last.duration - 1)] else []);
      assert forall e :: e in r ==> exists f :: f in effects && f.duration > 1 && e == f.(duration := f.duration - 1) by {
        forall e | e in r ensures exists f :: f in effects && f.duration > 1 && e == f.(duration := f.duration - 1) {
          if e in rest {
            var f :| f in init && f.duration > 1 && e == f.(duration := f.duration - 1);
            assert f in effects;
          } else {
            assert last in effects;
          }
        }
      }
      r
  }

  /** Every cooldown comes one turn closer to zero. */
  function Tick(abilities: seq<AbilityStatus>): (r: seq<AbilityStatus>)
    ensures |r| == |abilities|
    ensures forall i :: 0 <= i < |r| ==> r[i].abilityId == abilities[i].abilityId
    ensures forall i :: 0 <= i < |r| ==> r[i].cooldown == if abilities[i].cooldown > 1 then abilities[i].cooldown - 1 else 0
  {
    seq(|abilities|, i requires 0 <= i < |abilities| =>
      abilities[i].(cooldown := if abilities[i].cooldown - 1 > 0 then abilities[i].cooldown - 1 else 0))
  }

  /**
   * A surviving unit as the next turn finds it (1158-1169): when the battle
   * goes on, the units of the side whose turn begins get their action
   * points back, may move again and count their effects down, and their
   * cooldowns tick only if it was the player who just acted. No unit stays
   * targetable.
   */
  function Handover(u: Unit, side: Allegiance, playing: bool): Unit
  {
    var starts := playing && u.allegiance == Opponent(side);
    u.(ap := if starts then u.maxAp else u.ap,
       targetable := false,
       hasMoved := if starts then false else u.hasMoved,
       effects := if starts then Countdown(u.effects) else u.effects,
       abilities := if starts && side == Player then Tick(u.abilities) else u.abilities)
  }

  /** A unit as an interrupted turn leaves it: only enemies forget that they moved (1155-1156). */
  function Halted(u: Unit, side: Allegiance): Unit
  {
    u.(hasMoved := if side == Player then u.hasMoved else false)
  }

  /** The messages that close the turn: the control switch, the verdict, or the hand-over. */
  function ClosingMessages(interrupted: bool, final: GameOverState, anyAction: bool, hadActors: bool): seq<string>
  {
    if interrupted then [MSG_AI_MANUAL]
    else if final != Playing then [if final == Victory then MSG_AI_VICTORY else MSG_AI_DEFEAT]
    else (if !anyAction && hadActors then [MSG_AI_IDLE] else []) + [MSG_AI_TURN_END, MSG_AI_TURN_START]
  }

  /**
   * The committed state (1132-1180), from the working unit list and grid,
   * the messages and damage entries gathered, whether anything was done,
   * whether there were units to act, and whether the player interrupted.
   */
  function Bookkeep(s: CombatState, side: Allegiance, units: seq<Unit>, grid: Grid, msgs: seq<string>,
                    entries: seq<DamageEntry>, anyAction: bool, hadActors: bool, interrupted: bool): (r: CombatState)
    ensures r.selected == None && r.pending == None && r.grid == grid
    ensures r.damageLog == s.damageLog + entries && |r.log| <= MESSAGE_LOG_SIZE
    ensures r.gameOver == GameOverStatus(units, s.gameOver)
    ensures interrupted ==> |r.units| == |units| && r.currentTurn == s.currentTurn && !r.delegated
    ensures !interrupted ==> (forall i :: 0 <= i < |r.units| ==> r.units[i].health > 0 && !r.units[i].targetable)
    ensures r.currentTurn != s.currentTurn ==> !interrupted && r.gameOver == Playing && r.currentTurn == Opponent(side)
  {
    LivingSameOutcome(units, s.gameOver);
    var survivors := Living(units);
    assert forall i :: 0 <= i < |survivors| ==> survivors[i] in survivors;
    var final := GameOverStatus(survivors, s.gameOver);
    var handsOver := !interrupted && final == Playing;
    s.(units := if interrupted then seq(|units|, i requires 0 <= i < |units| => Halted(units[i], side))
                else seq(|survivors|, i requires 0 <= i < |survivors| => Handover(survivors[i], side, final == Playing)),
       grid := grid,
       currentTurn := if handsOver then Opponent(side) else s.currentTurn,
       turnNumber := if handsOver && Opponent(side) == Player then s.turnNumber + 1 else s.turnNumber,
       selected := None,
       pending := None,
       log := Trim(s.log + msgs + ClosingMessages(interrupted, final, anyAction, hadActors)),
       damageLog := s.damageLog + entries,
       gameOver := final,
       delegated := if interrupted then false else s.delegated)
  }

  /**
   * An uninterrupted turn after which the battle goes on hands the turn
   * over: the other side plays next, the turn number grows only when the
   * player is next, every unit left is alive and none targetable, and the
   * units of the next side have all their action points and may move.
   */
  lemma HandsOver(s: CombatState, side: Allegiance, units: seq<Unit>, grid: Grid, msgs: seq<string>,
                  entries: seq<DamageEntry>, anyAction: bool, hadActors: bool)
    requires Bookkeep(s, side, units, grid, msgs, entries, anyAction, hadActors, false).gameOver == Playing
    ensures var r := Bookkeep(s, side, units, grid, msgs, entries, anyAction, hadActors, false);
      && r.currentTurn == Opponent(side) && r.currentTurn != side
      && r.turnNumber == (if Opponent(side) == Player then s.turnNumber + 1 else s.turnNumber)
      && r.delegated == s.delegated
      && forall i :: 0 <= i < |r.units| ==>
           && r.units[i].health > 0 && !r.units[i].targetable
           && (r.units[i].allegiance == Opponent(side) ==> r.units[i].ap == r.units[i].maxAp && !r.units[i].hasMoved)
  {
    var r := Bookkeep(s, side, units, grid, msgs, entries, anyAction, hadActors, false);
    var survivors := Living(units);
    forall i | 0 <= i < |r.units| ensures r.units[i].health > 0 {
      assert survivors[i] in survivors;
    }
  }

  /**
   * An interrupted turn keeps the turn and its number, hands control back
   * to the player, and keeps every unit, the destroyed ones included.
   */
  lemma HaltKeepsTurn(s: CombatState, units: seq<Unit>, grid: Grid, msgs: seq<string>,
                      entries: seq<DamageEntry>, anyAction: bool, hadActors: bool)
    ensures var r := Bookkeep(s, Player, units, grid, msgs, entries, anyAction, hadActors, true);
      && r.currentTurn == s.currentTurn && r.turnNumber == s.turnNumber && !r.delegated
      && r.units == units
      && r.log == Trim(s.log + msgs + [MSG_AI_MANUAL])
  {
  }

  /** A turn that decides the battle leaves the turn where it was and announces the verdict. */
  lemma VerdictKeepsTurn(s: CombatState, side: Allegiance, units: seq<Unit>, grid: Grid, msgs: seq<string>,
                         entries: seq<DamageEntry>, anyAction: bool, hadActors: bool)
    requires Bookkeep(s, side, units, grid, msgs, entries, anyAction, hadActors, false).gameOver != Playing
    ensures var r := Bookkeep(s, side, units, grid, msgs, entries, anyAction, hadActors, false);
      && r.currentTurn == s.currentTurn && r.turnNumber == s.turnNumber
      && r.gameOver == GameOverStatus(units, s.gameOver)
      && (s.gameOver == Playing && r.gameOver == Victory ==> !AnyAlive(units, Enemy))
      && (s.gameOver == Playing && r.gameOver == Defeat ==> !AnyAlive(units, Player))
      && r.log == Trim(s.log + msgs + [if r.gameOver == Victory then MSG_AI_VICTORY else MSG_AI_DEFEAT])
  {
    LivingSameOutcome(units, s.gameOver);
    GameOverStatusMeaning(units, s.gameOver);
  }

  /**
   * Cooldowns as written: a player unit's cooldowns never tick at a
   * hand-over, since they tick only for the side whose turn begins and
   * only when the player just acted; an enemy's tick after each player turn.
   */
  lemma PlayerCooldownsNeverTick(u: Unit, side: Allegiance, playing: bool)
    ensures u.allegiance == Player ==> Handover(u, side, playing).abilities == u.abilities
    ensures u.allegiance == Enemy && side == Player && playing ==> Handover(u, side, playing).abilities == Tick(u.abilities)
  {
  }

  /** The committed state satisfies the combat invariant. */
  lemma BookkeepOk(s: CombatState, side: Allegiance, units: seq<Unit>, grid: Grid, msgs: seq<string>,
                   entries: seq<DamageEntry>, anyAction: bool, hadActors: bool, interrupted: bool)
    requires UnitsOk(units) && WellFormedGrid(grid)
    ensures StateOk(Bookkeep(s, side, units, grid, msgs, entries, anyAction, hadActors, interrupted))
  {
    var r := Bookkeep(s, side, units, grid, msgs, entries, anyAction, hadActors, interrupted);
    if interrupted {
      HaltedOk(units, side, r.units);
    } else {
      LivingOk(units);
      HandedOverOk(Living(units), side, GameOverStatus(Living(units), s.gameOver) == Playing, r.units);
    }
  }

  lemma HaltedOk(units: seq<Unit>, side: Allegiance, r: seq<Unit>)
    requires UnitsOk(units)
    requires r == seq(|units|, i requires 0 <= i < |units| => Halted(units[i], side))
    ensures UnitsOk(r)
  {
    SameIdsUnique(units, r);
  }

  lemma HandedOverOk(units: seq<Unit>, side: Allegiance, playing: bool, r: seq<Unit>)
    requires UnitsOk(units)
    requires r == seq(|units|, i requires 0 <= i < |units| => Handover(units[i], side, playing))
    ensures UnitsOk(r)
  {
    SameIdsUnique(units, r);
  }

  // ----- the turn -----

  /** Some unit among `acted` has the id. */
  predicate HadTurn(acted: seq<Unit>, id: string)
  {
    exists a :: a in acted && a.id == id
  }

  /** The units of the side that have not had their turn are as they were. */
  predicate Waiting(before: seq<Unit>, after: seq<Unit>, side: Allegiance, acted: seq<Unit>)
    requires |after| == |before|
  {
    forall m :: 0 <= m < |before| && before[m].allegiance == side && !HadTurn(acted, before[m].id) ==> after[m] == before[m]
  }

  /** The targets of a unit are tracked in the list they were taken from. */
  lemma OpponentsTracked(units: seq<Unit>, a: Unit, g: Grid, side: Allegiance)
    requires UniqueIds(units)
    ensures forall t :: t in TargetOrder(a, g, Opponents(units, side)) ==> Tracked(units, t, side)
  {
    TargetOrderMembers(a, g, Opponents(units, side));
    forall t | t in TargetOrder(a, g, Opponents(units, side)) ensures Tracked(units, t, side) {
      FindPresent(units, t);
    }
  }

  /** The actor found by id is the very unit of the snapshot, so it is of the acting side. */
  lemma ActorFound(start: seq<Unit>, units: seq<Unit>, side: Allegiance, a: Unit)
    requires UniqueIds(start) && TurnEvolved(start, units, side) && a in Actors(start, side)
    ensures IndexOf(units, a.id).Some? && units[IndexOf(units, a.id).value].allegiance == side
    ensures start[IndexOf(units, a.id).value] == a
  {
    FindPresent(start, a);
    TurnEvolvedLookups(start, units, side);
  }

  /** The waiting units stay as they were while the unit with `actors[i]`'s id acts. */
  lemma WaitingKept(start: seq<Unit>, units: seq<Unit>, next: seq<Unit>, side: Allegiance, actors: seq<Unit>, i: nat)
    requires i < |actors| && |units| == |start| && |next| == |start|
    requires forall j :: 0 <= j < |start| ==> units[j].allegiance == start[j].allegiance && units[j].id == start[j].id
    requires Waiting(start, units, side, actors[..i])
    requires forall j :: 0 <= j < |units| && units[j].allegiance == side && units[j].id != actors[i].id ==> next[j] == units[j]
    ensures Waiting(start, next, side, actors[..i + 1])
  {
    forall m | 0 <= m < |start| && start[m].allegiance == side && !HadTurn(actors[..i + 1], start[m].id)
      ensures next[m] == start[m]
    {
      assert actors[i] in actors[..i + 1];
      forall a | a in actors[..i] ensures a in actors[..i + 1] {
        var x :| 0 <= x < i && actors[x] == a;
        assert actors[..i + 1][x] == a;
      }
    }
  }

  /**
   * The turn of one unit of the snapshot (954-1128): it is looked up by id
   * and passed over if it has no health or points left; the turn loop stops
   * (`ended`) when the other side has no living unit; otherwise the unit
   * acts against the opponents in order of priority.
   */
  method ActorTurn(ghost start: seq<Unit>, ghost g0: Grid, units: seq<Unit>, grid: Grid, a: Unit, side: Allegiance,
                   prev: GameOverState, turn: int, rand: nat -> nat, draw: nat)
    returns (next: seq<Unit>, nextGrid: Grid, msgs: seq<string>, entries: seq<DamageEntry>, acted: bool, ended: bool, nextDraw: nat)
    requires UniqueIds(start) && a in Actors(start, side)
    requires UnitsOk(units) && SameTerrain(g0, grid) && TurnEvolved(start, units, side)
    ensures UnitsOk(next) && SameTerrain(g0, nextGrid) && TurnEvolved(start, next, side) && nextDraw >= draw
    ensures forall j :: 0 <= j < |units| && units[j].allegiance == side && units[j].id != a.id ==> next[j] == units[j]
    ensures ended ==> next == units
  {
    next, nextGrid, msgs, entries, acted, ended, nextDraw := units, grid, [], [], false, false, draw;
    ActorFound(start, units, side, a);
    var k := IndexOf(units, a.id).value;
    if units[k].health <= 0 || units[k].ap <= 0 {
      return;
    }
    var opponents := Opponents(units, side);
    if |opponents| == 0 {
      ended := true;
      return;
    }
    var targets := TargetOrder(units[k], grid, opponents);
    OpponentsTracked(units, units[k], grid, side);
    var actions;
    next, nextGrid, msgs, entries, actions, nextDraw := UnitTurn(units, grid, k, targets, prev, turn, side, rand, draw);
    TurnEvolvedTransitive(start, units, next, side);
    acted := actions > 0;
  }

  /**
   * The synchronous body of the automated turn of `side` (930-1180): the
   * units of the side that were alive with points left take their turns in
   * list order; before each, a raised stop request (seen before the
   * `stopAt`-th of them, player side only) ends the loop, and a decided
   * battle or a side without opponents does too. The neighbour orders of
   * the searches are drawn from `rand`.
   */
  method PlayTurn(s: CombatState, side: Allegiance, stopAt: Option<nat>, rand: nat -> nat)
    returns (r: CombatState, interrupted: bool)
    requires StateOk(s)
    ensures StateOk(r) && TurnOutcome(s, side, stopAt, r, interrupted)
  {
    if s.gameOver != Playing {
      return s, false;
    }
    var units, grid, msgs, entries, anyAction;
    units, grid, msgs, entries, anyAction, interrupted := RunActors(s.units, s.grid, s.gameOver, s.turnNumber, side, stopAt, rand);
    r := Bookkeep(s, side, units, grid, msgs, entries, anyAction, |Actors(s.units, side)| > 0, interrupted);
    Committed(s, side, stopAt, units, grid, msgs, entries, anyAction, interrupted, r);
  }

  /** The loop over the snapshot of acting units (946-1129). */
  method RunActors(start: seq<Unit>, g: Grid, prev: GameOverState, turn: int, side: Allegiance, stopAt: Option<nat>, rand: nat -> nat)
    returns (units: seq<Unit>, grid: Grid, msgs: seq<string>, entries: seq<DamageEntry>, anyAction: bool, interrupted: bool)
    requires UnitsOk(start) && WellFormedGrid(g)
    ensures UnitsOk(units) && SameTerrain(g, grid) && TurnEvolved(start, units, side)
    ensures interrupted ==> side == Player && stopAt.Some? && stopAt.value < |Actors(start, side)|
                            && Waiting(start, units, side, Actors(start, side)[..stopAt.value])
  {
    units, grid := start, g;
    msgs, entries := [], [];
    anyAction := false;
    interrupted := false;
    var actors := Actors(start, side);
    var draw := 0;
    var i := 0;
    while i < |actors|
      invariant 0 <= i <= |actors|
      invariant UnitsOk(units) && SameTerrain(g, grid) && TurnEvolved(start, units, side)
      invariant Waiting(start, units, side, actors[..i])
      invariant interrupted ==> side == Player && stopAt == Some(i) && i < |actors|
    {
      if side == Player && stopAt == Some(i) {
        interrupted := true;
        msgs := msgs + [MSG_AI_HALTED];
        break;
      }
      if GameOverStatus(units, prev) != Playing {
        break;
      }
      assert actors[i] in actors;
      var next, nextGrid, unitMsgs, unitEntries, acted, ended, nextDraw :=
        ActorTurn(start, g, units, grid, actors[i], side, prev, turn, rand, draw);
      if ended {
        break;
      }
      TurnEvolvedLookups(start, units, side);
      WaitingKept(start, units, next, side, actors, i);
      units, grid, draw := next, nextGrid, nextDraw;
      msgs, entries := msgs + unitMsgs, entries + unitEntries;
      anyAction := anyAction || acted;
      i := i + 1;
    }
  }

  /**
   * What the automated turn promises: nothing happens once the battle is
   * decided; an interruption (player side only, before one of the acting
   * units) keeps the turn and its number, hands control back and leaves the
   * units whose turn had not come as they were; an uninterrupted turn after
   * which the battle goes on hands the turn over, resetting the next side.
   * The damage log only grows.
   */
  predicate TurnOutcome(s: CombatState, side: Allegiance, stopAt: Option<nat>, r: CombatState, interrupted: bool)
  {
    && (s.gameOver != Playing ==> r == s && !interrupted)
    && (interrupted ==>
      && side == Player && stopAt.Some? && stopAt.value < |Actors(s.units, side)|
      && r.currentTurn == s.currentTurn && r.turnNumber == s.turnNumber && !r.delegated
      && |r.units| == |s.units| && TurnEvolved(s.units, r.units, side)
      && Waiting(s.units, r.units, side, Actors(s.units, side)[..stopAt.value]))
    && (!interrupted && r.gameOver == Playing ==>
      && r.currentTurn == Opponent(side)
      && r.turnNumber == (if Opponent(side) == Player then s.turnNumber + 1 else s.turnNumber)
      && r.delegated == s.delegated
      && forall i :: 0 <= i < |r.units| ==>
           && r.units[i].health > 0 && !r.units[i].targetable
           && (r.units[i].allegiance == Opponent(side) ==> r.units[i].ap == r.units[i].maxAp && !r.units[i].hasMoved))
    && (s.gameOver == Playing ==> r.selected == None && r.pending == None)
    && |r.damageLog| >= |s.damageLog| && r.damageLog[..|s.damageLog|] == s.damageLog
  }

  /** The bookkeeping after the loop delivers what the turn promises. */
  lemma Committed(s: CombatState, side: Allegiance, stopAt: Option<nat>, units: seq<Unit>, grid: Grid,
                  msgs: seq<string>, entries: seq<DamageEntry>, anyAction: bool, interrupted: bool, r: CombatState)
    requires s.gameOver == Playing && UnitsOk(units) && WellFormedGrid(grid) && TurnEvolved(s.units, units, side)
    requires interrupted ==> side == Player && stopAt.Some? && stopAt.value < |Actors(s.units, side)|
                             && Waiting(s.units, units, side, Actors(s.units, side)[..stopAt.value])
    requires r == Bookkeep(s, side, units, grid, msgs, entries, anyAction, |Actors(s.units, side)| > 0, interrupted)
    ensures StateOk(r) && TurnOutcome(s, side, stopAt, r, interrupted)
  {
    var hadActors := |Actors(s.units, side)| > 0;
    BookkeepOk(s, side, units, grid, msgs, entries, anyAction, hadActors, interrupted);
    if interrupted {
      HaltKeepsTurn(s, units, grid, msgs, entries, anyAction, hadActors);
    } else if r.gameOver == Playing {
      HandsOver(s, side, units, grid, msgs, entries, anyAction, hadActors);
    }
  }
}
