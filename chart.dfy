// The end-of-mission dialog's damage chart (components/GameEndModal.tsx):
// the damage log folded into one total per turn for each side.

module DamageChart {
  import opened Types

  /** `damageLog.reduce((max, e) => Math.max(max, e.turn), 0)`: the highest turn, 0 if none is positive. */
  function HighestTurn(log: seq<DamageEntry>): (r: nat)
    ensures forall k :: 0 <= k < |log| ==> log[k].turn <= r
    ensures r == 0 || exists k :: 0 <= k < |log| && log[k].turn == r
  {
    if |log| == 0 then 0
    else
      var init := log[..|log| - 1];
      var h := HighestTurn(init);
      assert forall k :: 0 <= k < |init| ==> log[k] == init[k];
      if log[|log| - 1].turn > h then log[|log| - 1].turn else h
  }

  /** The chart's turn count: the highest turn, or 1 when no entry has a positive turn. */
  function MaxTurn(log: seq<DamageEntry>): (r: nat)
    ensures r >= 1
    ensures forall k :: 0 <= k < |log| ==> log[k].turn <= r
    ensures r == 1 || exists k :: 0 <= k < |log| && log[k].turn == r
  {
    var h := HighestTurn(log);
    if h == 0 then 1 else h
  }

  /** The damage `side` dealt in turn `t`. */
  function TurnDamage(log: seq<DamageEntry>, side: Allegiance, t: int): int
  {
    if |log| == 0 then 0
    else
      TurnDamage(log[..|log| - 1], side, t)
        + if log[|log| - 1].allegiance == side && log[|log| - 1].turn == t then log[|log| - 1].damage else 0
  }

  /** The damage `side` dealt over all entries with a turn of at least 1. */
  function SideDamage(log: seq<DamageEntry>, side: Allegiance): int
  {
    if |log| == 0 then 0
    else
      SideDamage(log[..|log| - 1], side)
        + if log[|log| - 1].allegiance == side && log[|log| - 1].turn >= 1 then log[|log| - 1].damage else 0
  }

  /** One side's series: its damage in turns 1 to `MaxTurn(log)`. */
  function Series(log: seq<DamageEntry>, side: Allegiance): (r: seq<int>)
    ensures |r| == MaxTurn(log)
    ensures forall t :: 0 <= t < |r| ==> r[t] == TurnDamage(log, side, t + 1)
  {
    seq(MaxTurn(log), t => TurnDamage(log, side, t + 1))
  }

  function Sum(s: seq<int>): int
  {
    if |s| == 0 then 0 else Sum(s[..|s| - 1]) + s[|s| - 1]
  }

  /**
   * processChartData: two series of `maxTurn` zeros, then each entry's
   * damage added to its side's slot for its turn; entries of a turn below 1
   * and neutral entries add nothing.
   */
  method ProcessChartData(log: seq<DamageEntry>) returns (maxTurn: nat, playerData: seq<int>, enemyData: seq<int>)
    ensures maxTurn == MaxTurn(log)
    ensures playerData == Series(log, Player) && enemyData == Series(log, Enemy)
  {
    maxTurn := ChartTurns(log);
    playerData, enemyData := Accumulate(log, maxTurn);
  }

  /** The reduce for the highest turn, raised to 1 when no turn is positive. */
  method ChartTurns(log: seq<DamageEntry>) returns (maxTurn: nat)
    ensures maxTurn == MaxTurn(log)
  {
    maxTurn := 0;
    for k := 0 to |log|
      invariant maxTurn == HighestTurn(log[..k])
    {
      assert log[..k + 1][..k] == log[..k];
      if log[k].turn > maxTurn {
        maxTurn := log[k].turn;
      }
    }
    assert log[..|log|] == log;
    if maxTurn == 0 {
      maxTurn := 1;
    }
  }

  /** The zero-filled series and the `forEach` adding each entry into its side's slot. */
  method Accumulate(log: seq<DamageEntry>, maxTurn: nat) returns (playerData: seq<int>, enemyData: seq<int>)
    ensures |playerData| == maxTurn && |enemyData| == maxTurn
    ensures forall t :: 0 <= t < maxTurn ==> playerData[t] == TurnDamage(log, Player, t + 1)
    ensures forall t :: 0 <= t < maxTurn ==> enemyData[t] == TurnDamage(log, Enemy, t + 1)
  {
    var player := new int[maxTurn](_ => 0);
    var enemy := new int[maxTurn](_ => 0);
    for k := 0 to |log|
      invariant forall t :: 0 <= t < maxTurn ==> player[t] == TurnDamage(log[..k], Player, t + 1)
      invariant forall t :: 0 <= t < maxTurn ==> enemy[t] == TurnDamage(log[..k], Enemy, t + 1)
    {
      ghost var before := log[..k];
      assert log[..k + 1] == before + [log[k]];
      TurnDamageSnoc(before, log[k]);
      var entry := log[k];
      var turnIndex := entry.turn - 1;
      if 0 <= turnIndex < maxTurn {
        if entry.allegiance == Player {
          player[turnIndex] := player[turnIndex] + entry.damage;
        } else if entry.allegiance == Enemy {
          enemy[turnIndex] := enemy[turnIndex] + entry.damage;
        }
      }
    }
    assert log[..|log|] == log;
    playerData, enemyData := player[..], enemy[..];
  }

  /** One more entry changes only its own side's total for its own turn. */
  lemma TurnDamageSnoc(log: seq<DamageEntry>, e: DamageEntry)
    ensures forall side, t :: TurnDamage(log + [e], side, t) ==
              TurnDamage(log, side, t) + if e.allegiance == side && e.turn == t then e.damage else 0
  {
    assert (log + [e])[..|log|] == log;
  }

  /** The totals over turns 1 to `n`. */
  function SeriesSum(log: seq<DamageEntry>, side: Allegiance, n: nat): int
  {
    if n == 0 then 0 else SeriesSum(log, side, n - 1) + TurnDamage(log, side, n)
  }

  /** Adding one entry adds its damage to the sum over the turns that include its own. */
  lemma {:induction false} SeriesSumSnoc(log: seq<DamageEntry>, e: DamageEntry, side: Allegiance, n: nat)
    ensures SeriesSum(log + [e], side, n) ==
              SeriesSum(log, side, n) + if e.allegiance == side && 1 <= e.turn <= n then e.damage else 0
  {
    assert (log + [e])[..|log|] == log;
    if n > 0 {
      SeriesSumSnoc(log, e, side, n - 1);
    }
  }

  /** When no entry is past turn `n`, the turns 1 to `n` hold all of a side's damage from turn 1 on. */
  lemma {:induction false} SeriesSumCoversLog(log: seq<DamageEntry>, side: Allegiance, n: nat)
    requires forall k :: 0 <= k < |log| ==> log[k].turn <= n
    ensures SeriesSum(log, side, n) == SideDamage(log, side)
  {
    if |log| == 0 {
      EmptyLogSeries(side, n);
    } else {
      var init := log[..|log| - 1];
      var e := log[|log| - 1];
      assert log == init + [e];
      SeriesSumCoversLog(init, side, n);
      SeriesSumSnoc(init, e, side, n);
    }
  }

  lemma {:induction false} EmptyLogSeries(side: Allegiance, n: nat)
    ensures SeriesSum([], side, n) == 0
  {
    if n > 0 {
      EmptyLogSeries(side, n - 1);
    }
  }

  lemma {:induction false} SumIsSeriesSum(log: seq<DamageEntry>, side: Allegiance, n: nat)
    requires n <= MaxTurn(log)
    ensures Sum(Series(log, side)[..n]) == SeriesSum(log, side, n)
  {
    if n > 0 {
      assert Series(log, side)[..n][..n - 1] == Series(log, side)[..n - 1];
      SumIsSeriesSum(log, side, n - 1);
    }
  }

  /**
   * Each series adds up to its side's damage over every entry with a turn
   * of at least 1: no such entry falls outside the chart, and neutral
   * entries and those of earlier turns are the only ones left out.
   */
  lemma SeriesTotal(log: seq<DamageEntry>, side: Allegiance)
    ensures Sum(Series(log, side)) == SideDamage(log, side)
  {
    SumIsSeriesSum(log, side, MaxTurn(log));
    assert Series(log, side)[..MaxTurn(log)] == Series(log, side);
    SeriesSumCoversLog(log, side, MaxTurn(log));
  }

  /** Neutral entries never reach the chart. */
  lemma NeutralIgnored(log: seq<DamageEntry>, e: DamageEntry, side: Allegiance, t: int)
    requires e.allegiance == Neutral && side != Neutral
    ensures TurnDamage(log + [e], side, t) == TurnDamage(log, side, t)
  {
    assert (log + [e])[..|log|] == log;
  }

  /**
   * What the dialog shows: nothing while the battle is still being played;
   * no chart for an empty log; otherwise both series.
   */
  datatype Dialog = Hidden | Shown(chart: Option<(seq<int>, seq<int>)>)

  function EndDialog(status: GameOverState, log: seq<DamageEntry>): (r: Dialog)
    ensures r.Hidden? <==> status == Playing
    ensures r.Shown? ==> (r.chart.None? <==> |log| == 0)
    ensures r.Shown? && r.chart.Some? ==> r.chart.value == (Series(log, Player), Series(log, Enemy))
  {
    if status == Playing then Hidden
    else if |log| == 0 then Shown(None)
    else Shown(Some((Series(log, Player), Series(log, Enemy))))
  }
}
