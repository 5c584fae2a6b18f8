// The combat screen's controller: the combat state together with the
// AI-processing flag, the stop request of the delegated player turn and the
// timer chain that plays automated turns (components/CombatView.tsx).

module Engine {
  import opened Types
  import opened Rules
  import opened Combat
  import opened AutoTurn
  import opened Turn

  /**
   * The one timer callback in flight: an automated turn about to be started
   * (the short re-call after a commit) or one about to be played (the delay
   * after its start message).
   */
  datatype Timer = Idle | StartDue(side: Allegiance) | PlayDue(side: Allegiance)

  const MSG_AI_PROCESSING := "AI turn in progress"
  const MSG_STOP_AT_START := "player AI delegation stopped, manual control"
  const MSG_STOP_AT_PLAY := "player AI delegation stopped before processing, manual control"
  const MSG_STOP_AT_HANDOVER := "player AI delegation stopped before the turn ended, manual control"

  /** The number of units of one side, alive or not (the deployment counts). */
  function SideCount(units: seq<Unit>, side: Allegiance): (r: nat)
    ensures r <= |units|
    ensures r == 0 <==> forall i :: 0 <= i < |units| ==> units[i].allegiance != side
    ensures r == |units| <==> forall i :: 0 <= i < |units| ==> units[i].allegiance == side
  {
    if |units| == 0 then 0
    else SideCount(units[..|units| - 1], side) + (if units[|units| - 1].allegiance == side then 1 else 0)
  }

  /** Every unit belongs to exactly one side, so the three counts add up to the roster. */
  lemma {:induction false} SideCountsAddUp(units: seq<Unit>)
    ensures SideCount(units, Player) + SideCount(units, Enemy) + SideCount(units, Neutral) == |units|
  {
    if |units| > 0 {
      SideCountsAddUp(units[..|units| - 1]);
    }
  }

  /** Living units are among the deployed ones: the alive count never exceeds the side count. */
  lemma {:induction false} AliveWithinDeployed(units: seq<Unit>, side: Allegiance)
    ensures CountAlive(units, side) <= SideCount(units, side)
  {
    if |units| > 0 {
      AliveWithinDeployed(units[..|units| - 1], side);
    }
  }

  class CombatEngine {
    var state: CombatState
    var aiProcessing: bool
    var stopRequested: bool
    var timer: Timer
    var initialPlayers: int
    var initialEnemies: int

    /**
     * The AI is processing exactly while a timer is in flight, and a timer
     * always belongs to the side whose turn it is.
     */
    ghost predicate Valid()
      reads this
    {
      && StateOk(state)
      && (aiProcessing <==> timer != Idle)
      && (timer != Idle ==> timer.side == state.currentTurn)
    }

    /** Manual input is ignored while the game is over, the AI is processing, or the player turn is delegated. */
    predicate InputBlocked()
      reads this
    {
      state.gameOver != Playing || aiProcessing || (state.currentTurn == Player && state.delegated)
    }

    /** Mounting the screen with a freshly deployed combat state: nothing runs, and the deployment is counted per side. */
    constructor (s0: CombatState)
      requires StateOk(s0)
      ensures Valid()
      ensures state == s0 && !aiProcessing && !stopRequested && timer == Idle
      ensures initialPlayers == SideCount(s0.units, Player) && initialEnemies == SideCount(s0.units, Enemy)
    {
      state := s0;
      aiProcessing := false;
      stopRequested := false;
      timer := Idle;
      initialPlayers := SideCount(s0.units, Player);
      initialEnemies := SideCount(s0.units, Enemy);
    }

    /** handleCanvasClick: past the guard, the click's effect on the combat state. */
    method Click(c: Click)
      requires Valid() && (c.TileClick? ==> InBounds(c.p))
      modifies this
      ensures Valid()
      ensures state == if old(InputBlocked()) then old(state) else HandleClick(old(state), c)
      ensures aiProcessing == old(aiProcessing) && stopRequested == old(stopRequested) && timer == old(timer)
      ensures initialPlayers == old(initialPlayers) && initialEnemies == old(initialEnemies)
    {
      if InputBlocked() { return; }
      ClickKeepsStateOk(state, c);
      state := HandleClick(state, c);
    }

    /** handleAction: past the guard, the move, attack or skip button's effect. */
    method Act(act: ActionKind)
      requires Valid()
      modifies this
      ensures Valid()
      ensures state == if old(InputBlocked()) then old(state) else ActionResult(old(state), act)
      ensures aiProcessing == old(aiProcessing) && stopRequested == old(stopRequested) && timer == old(timer)
      ensures initialPlayers == old(initialPlayers) && initialEnemies == old(initialEnemies)
    {
      if InputBlocked() { return; }
      ActionKeepsStateOk(state, act);
      state := HandleAction(state, act);
    }

    /** handleAbilityActionSelected: past the guard, the ability button's effect. */
    method UseAbility(id: string)
      requires Valid()
      modifies this
      ensures Valid()
      ensures state == if old(InputBlocked()) then old(state) else AbilityResult(old(state), id)
      ensures aiProcessing == old(aiProcessing) && stopRequested == old(stopRequested) && timer == old(timer)
      ensures initialPlayers == old(initialPlayers) && initialEnemies == old(initialEnemies)
    {
      if InputBlocked() { return; }
      AbilityKeepsStateOk(state, id);
      state := RequestAbility(state, id);
    }

    /**
     * executeAutomatedTurn's synchronous part. A pending stop request ends
     * the player's delegation before anything runs; otherwise the AI starts
     * processing, announces it, and the turn is due after the delay.
     */
    method Begin(side: Allegiance)
      requires StateOk(state) && timer == Idle && side == state.currentTurn
      modifies this
      ensures Valid()
      ensures if side == Player && old(stopRequested) then
                && !stopRequested && !aiProcessing && timer == Idle
                && state == (if old(state).delegated then WithMessage(old(state).(delegated := false), MSG_STOP_AT_START)
                             else old(state))
              else
                && stopRequested == old(stopRequested) && aiProcessing && timer == PlayDue(side)
                && state == WithMessage(old(state), MSG_AI_PROCESSING)
      ensures initialPlayers == old(initialPlayers) && initialEnemies == old(initialEnemies)
    {
      if side == Player && stopRequested {
        stopRequested := false;
        aiProcessing := false;
        if state.delegated {
          state := WithMessage(state.(delegated := false), MSG_STOP_AT_START);
        }
        return;
      }
      aiProcessing := true;
      state := WithMessage(state, MSG_AI_PROCESSING);
      timer := PlayDue(side);
    }

    /** handleEndTurn: past its guard, the player turn ends and the enemy's automated turn begins. */
    method EndTurnPressed()
      requires Valid()
      modifies this
      ensures Valid()
      ensures old(state.gameOver != Playing || state.currentTurn != Player || aiProcessing || state.delegated) ==>
                state == old(state) && aiProcessing == old(aiProcessing) && timer == old(timer)
      ensures old(state.gameOver == Playing && state.currentTurn == Player && !aiProcessing && !state.delegated) ==>
                state == WithMessage(EndTurn(old(state)), MSG_AI_PROCESSING) && aiProcessing && timer == PlayDue(Enemy)
      ensures stopRequested == old(stopRequested)
      ensures initialPlayers == old(initialPlayers) && initialEnemies == old(initialEnemies)
    {
      if state.gameOver != Playing || state.currentTurn != Player || aiProcessing || state.delegated { return; }
      EndTurnKeepsStateOk(state);
      state := EndTurn(state);
      Begin(Enemy);
    }

    /**
     * handleToggleDelegateCombat, only during the player's own turn of a
     * running game. Switching back to manual while the AI is processing asks
     * the running chain to stop; switching to the AI while nothing runs
     * starts the automated player turn at once.
     */
    method ToggleDelegatePressed()
      requires Valid()
      modifies this
      ensures Valid()
      ensures old(state.gameOver != Playing || state.currentTurn != Player) ==>
                state == old(state) && aiProcessing == old(aiProcessing) && timer == old(timer)
                && stopRequested == old(stopRequested)
      ensures old(state.gameOver == Playing && state.currentTurn == Player) ==>
                var toggled := ToggleDelegate(old(state));
                if !toggled.delegated then
                  && state == toggled && aiProcessing == old(aiProcessing) && timer == old(timer)
                  && stopRequested == (old(stopRequested) || old(aiProcessing))
                else if old(aiProcessing) then
                  && state == toggled && aiProcessing && timer == old(timer) && stopRequested == old(stopRequested)
                else if old(stopRequested) then
                  && state == WithMessage(toggled.(delegated := false), MSG_STOP_AT_START)
                  && !aiProcessing && timer == Idle && !stopRequested
                else
                  && state == WithMessage(toggled, MSG_AI_PROCESSING) && aiProcessing && timer == PlayDue(Player)
                  && !stopRequested
      ensures initialPlayers == old(initialPlayers) && initialEnemies == old(initialEnemies)
    {
      if state.gameOver != Playing || state.currentTurn != Player { return; }
      var willBeDelegated := !state.delegated;
      if !willBeDelegated && aiProcessing {
        stopRequested := true;
      }
      ToggleKeepsStateOk(state);
      state := ToggleDelegate(state);
      if willBeDelegated && !aiProcessing {
        Begin(Player);
      }
    }

    /**
     * The delayed body of executeAutomatedTurn. A finished game only stops the
     * processing; a stop request of the player turn hands control back; any
     * other turn is played out, and then the chain goes on to the enemy,
     * to a still delegated player (unless a stop arrived meanwhile), or ends.
     * `played` is the committed turn, before any late stop is applied.
     */
    method Play(side: Allegiance, rand: nat -> nat) returns (ghost played: CombatState)
      requires StateOk(state) && aiProcessing && timer == Idle && side == state.currentTurn
      modifies this
      ensures Valid()
      ensures initialPlayers == old(initialPlayers) && initialEnemies == old(initialEnemies)
      ensures old(state).gameOver != Playing ==>
                state == old(state) && !aiProcessing && timer == Idle && stopRequested == old(stopRequested)
      ensures old(state).gameOver == Playing && side == Player && old(stopRequested) ==>
                && state == WithMessage(old(state).(delegated := false), MSG_STOP_AT_PLAY)
                && !aiProcessing && timer == Idle && !stopRequested
      ensures old(state).gameOver == Playing && !(side == Player && old(stopRequested)) ==>
                && StateOk(played) && TurnOutcome(old(state), side, None, played, false)
                && (played.gameOver != Playing ==>
                      state == played && !aiProcessing && timer == Idle && stopRequested == old(stopRequested))
                && (played.gameOver == Playing && played.currentTurn == Enemy ==>
                      state == played && timer == StartDue(Enemy) && stopRequested == old(stopRequested))
                && (played.gameOver == Playing && played.currentTurn == Player && !played.delegated ==>
                      state == played && !aiProcessing && timer == Idle && stopRequested == old(stopRequested))
                && (played.gameOver == Playing && played.currentTurn == Player && played.delegated ==>
                      if old(stopRequested) then
                        && state == played.(delegated := false, log := Trim(played.log + [MSG_STOP_AT_HANDOVER]))
                        && !aiProcessing && timer == Idle && !stopRequested
                      else
                        state == played && timer == StartDue(Player) && stopRequested == old(stopRequested))
    {
      played := state;
      if state.gameOver != Playing {
        aiProcessing := false;
        return;
      }
      if side == Player && stopRequested {
        stopRequested := false;
        aiProcessing := false;
        state := WithMessage(state.(delegated := false), MSG_STOP_AT_PLAY);
        return;
      }
      var r, interrupted := PlayTurn(state, side, None, rand);
      played := r;
      state := r;
      if r.gameOver == Playing && !interrupted {
        if r.currentTurn == Enemy {
          timer := StartDue(Enemy);
        } else if r.currentTurn == Player && r.delegated {
          if stopRequested {
            stopRequested := false;
            aiProcessing := false;
            state := r.(delegated := false, log := Trim(r.log + [MSG_STOP_AT_HANDOVER]));
          } else {
            timer := StartDue(Player);
          }
        } else {
          aiProcessing := false;
        }
      } else {
        aiProcessing := false;
      }
    }

    /** The timer in flight fires: a due start begins the automated turn, a due turn is played. */
    method Tick(rand: nat -> nat)
      requires Valid() && timer != Idle
      modifies this
      ensures Valid()
      ensures old(timer).PlayDue? && old(state).gameOver != Playing ==> state == old(state) && !aiProcessing && timer == Idle
      ensures initialPlayers == old(initialPlayers) && initialEnemies == old(initialEnemies)
    {
      var t := timer;
      timer := Idle;
      match t
      case StartDue(side) =>
        Begin(side);
      case PlayDue(side) =>
        ghost var played := Play(side, rand);
    }

    /** handleReturnToMenuViaCombatEnd: the battle's summary against the deployment counts. */
    function Summary(): (r: CombatResult)
      reads this
      ensures r.outcome == state.gameOver && r.survivors == Survivors(state.units)
      ensures r.unitsLost == initialPlayers - CountAlive(state.units, Player)
      ensures r.enemiesDefeated == initialEnemies - CountAlive(state.units, Enemy)
    {
      BattleSummary(state, initialPlayers, initialEnemies)
    }
  }
}
