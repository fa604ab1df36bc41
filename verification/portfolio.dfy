/** The return and statistics engine (backtester/src/portfolio/base.py):
    buy/sell signals become a position series, positions become per-bar
    strategy returns, and the returns feed the trade counters, drawdown,
    profit factor, equity curve and trade log. */
module Portfolio {
  import opened Wrappers
  import opened Series
  import opened Frame

  /** `Portfolio.initial_balance`: the equity curve's starting balance. */
  const InitialBalance: real := 1000.0
  /** `Portfolio.volume`: the notional a trade's dollar profit is taken on. */
  const Volume: real := 1000.0

  // ---------------------------------------------------------------------
  // signals_to_positions

  /** The tri-state seed `np.where(buy, 1, np.where(sell, -1, nan))`:
      a buy is tested first, so it wins over a sell on the same bar. */
  function Seed(buy: bool, sell: bool): Option<int>
  {
    if buy then Some(1) else if sell then Some(-1) else None
  }

  /** `ffill()` at offset `i`: the last defined seed at or before `i`,
      undefined when there is none. */
  function FilledAt(s: seq<Option<int>>, i: nat): Option<int>
    requires i < |s|
  {
    if s[i].Some? then s[i] else if i == 0 then None else FilledAt(s, i - 1)
  }

  /** `ffill()` over the whole series. */
  function ForwardFill(s: seq<Option<int>>): (r: seq<Option<int>>)
    ensures |r| == |s|
  {
    seq(|s|, i requires 0 <= i < |s| => FilledAt(s, i))
  }

  /** `fillna(-1)`, then `(x + 1) // 2` cast to bool. */
  predicate Long(filled: Option<int>)
  {
    ((match filled case Some(x) => x case None => -1) + 1) / 2 != 0
  }

  /** signals_to_positions for a single series: a buy opens (or keeps) the
      position, a sell without a buy closes it, and a bar with neither
      carries the previous bar's position; before any seed it is flat. */
  function SignalsToPositions(buy: seq<bool>, sell: seq<bool>): (pos: seq<bool>)
    requires |buy| == |sell|
    ensures |pos| == |buy|
    ensures forall i :: 0 <= i < |pos| ==> (pos[i] <==> buy[i] || (!sell[i] && i > 0 && pos[i - 1]))
  {
    var seeds := seq(|buy|, i requires 0 <= i < |buy| => Seed(buy[i], sell[i]));
    var filled := ForwardFill(seeds);
    var pos := seq(|buy|, i requires 0 <= i < |buy| => Long(filled[i]));
    assert forall i :: 0 <= i < |pos| ==> (pos[i] <==> buy[i] || (!sell[i] && i > 0 && pos[i - 1])) by {
      forall i | 0 <= i < |pos|
        ensures pos[i] <==> buy[i] || (!sell[i] && i > 0 && pos[i - 1])
      {
        assert filled[i] == FilledAt(seeds, i);
        if buy[i] {
          assert filled[i] == Some(1);
        } else if sell[i] {
          assert filled[i] == Some(-1);
        } else if i == 0 {
          assert filled[i] == None;
        } else {
          assert filled[i] == filled[i - 1];
        }
      }
    }
    pos
  }

  /** The last seed at or before `i` is a buy: some buy at `k <= i` is
      followed by no buy and no sell up to `i`. */
  predicate HeldAt(buy: seq<bool>, sell: seq<bool>, i: int)
    requires |buy| == |sell|
  {
    exists k :: 0 <= k <= i && k < |buy| && buy[k] && Quiet(buy, sell, k, i)
  }

  /** No buy and no sell in `(k, i]`. */
  predicate Quiet(buy: seq<bool>, sell: seq<bool>, k: int, i: int)
    requires |buy| == |sell|
  {
    forall m :: k < m <= i && 0 <= m < |buy| ==> !buy[m] && !sell[m]
  }

  /** The position at `i` is held exactly when the last seed at or before
      `i` is a buy. */
  lemma {:induction false} PositionIsLastSeed(buy: seq<bool>, sell: seq<bool>, i: nat)
    requires |buy| == |sell| && i < |buy|
    ensures SignalsToPositions(buy, sell)[i] <==> HeldAt(buy, sell, i)
  {
    var pos := SignalsToPositions(buy, sell);
    if buy[i] {
      assert Quiet(buy, sell, i, i);
      assert HeldAt(buy, sell, i);
    } else if sell[i] {
      assert !pos[i];
    } else if i == 0 {
      assert !pos[i];
    } else {
      assert pos[i] == pos[i - 1];
      PositionIsLastSeed(buy, sell, i - 1);
      if HeldAt(buy, sell, i) {
        var k :| 0 <= k <= i && k < |buy| && buy[k] && Quiet(buy, sell, k, i);
        assert k <= i - 1;
        assert Quiet(buy, sell, k, i - 1);
        assert HeldAt(buy, sell, i - 1);
      }
      if HeldAt(buy, sell, i - 1) {
        var k :| 0 <= k <= i - 1 && k < |buy| && buy[k] && Quiet(buy, sell, k, i - 1);
        assert Quiet(buy, sell, k, i);
        assert HeldAt(buy, sell, i);
      }
    }
  }

  /** Before the first buy the strategy is flat. */
  lemma {:induction false} FlatBeforeFirstBuy(buy: seq<bool>, sell: seq<bool>, i: nat)
    requires |buy| == |sell| && i < |buy|
    requires forall k :: 0 <= k <= i ==> !buy[k]
    ensures !SignalsToPositions(buy, sell)[i]
  {
    var pos := SignalsToPositions(buy, sell);
    assert !buy[i];
    if i > 0 {
      FlatBeforeFirstBuy(buy, sell, i - 1);
      assert !pos[i - 1];
    }
  }

  /** The position changes only on a bar carrying a buy or a sell signal;
      it goes long only on a buy and flat only on a sell without a buy. */
  lemma ChangesOnlyAtSignals(buy: seq<bool>, sell: seq<bool>, i: nat)
    requires |buy| == |sell| && 0 < i < |buy|
    requires SignalsToPositions(buy, sell)[i] != SignalsToPositions(buy, sell)[i - 1]
    ensures SignalsToPositions(buy, sell)[i] ==> buy[i]
    ensures !SignalsToPositions(buy, sell)[i] ==> sell[i] && !buy[i]
  {
  }

  /** A position series re-encoded as signals (buy while in position,
      sell while flat) converts back to itself. */
  lemma PositionsRoundTrip(pos: seq<bool>)
    ensures SignalsToPositions(pos, seq(|pos|, i requires 0 <= i < |pos| => !pos[i])) == pos
  {
    var sell := seq(|pos|, i requires 0 <= i < |pos| => !pos[i]);
    var back := SignalsToPositions(pos, sell);
    forall i | 0 <= i < |pos|
      ensures back[i] == pos[i]
    {
    }
  }

  // ---------------------------------------------------------------------
  // calculate_returns

  /** `s.shift(-k)`: the value `k` bars ahead, NaN past the end. */
  function Lead(s: seq<real>, k: nat): (r: seq<Option<real>>)
    ensures |r| == |s|
  {
    seq(|s|, i requires 0 <= i < |s| => if i + k < |s| then Some(s[i + k]) else None)
  }

  /** One bar's strategy return before `fillna(0)`: the next-bar to
      next-next-bar open return, scaled by the position; NaN where either
      open is missing. */
  function Scaled(entry: Option<real>, exit: Option<real>, held: bool): Option<real>
    requires entry.Some? ==> entry.value > 0.0
  {
    match (entry, exit)
    case (Some(e), Some(x)) => Some((x - e) / e * (if held then 1.0 else 0.0))
    case _ => None
  }

  lemma ReturnAboveMinusOne(e: real, x: real)
    requires e > 0.0 && x > 0.0
    ensures (x - e) / e > -1.0
  {
    var q := (x - e) / e;
    assert q * e == x - e;
  }

  /** calculate_returns: the per-bar strategy return is the
      open-to-open return of the two following bars when in position and 0
      otherwise; the last two bars are always 0, and no return reaches -1. */
  function CalculateReturns(b: Bars, pos: seq<bool>): (r: seq<real>)
    requires Aligned(b) && Positive(b.open) && |pos| == b.Length()
    ensures |r| == b.Length()
    ensures forall i :: 0 <= i < |r| ==>
      r[i] == (if pos[i] && i + 2 < |r| then (b.open[i + 2] - b.open[i + 1]) / b.open[i + 1] else 0.0)
    ensures forall i :: 0 <= i < |r| ==> r[i] > -1.0
  {
    var entry := Lead(b.open, 1);
    var exit := Lead(b.open, 2);
    var r := seq(|pos|, i requires 0 <= i < |pos| =>
      match Scaled(entry[i], exit[i], pos[i]) case Some(x) => x case None => 0.0);
    assert forall i :: 0 <= i < |r| ==> r[i] > -1.0 by {
      forall i | 0 <= i < |r|
        ensures r[i] > -1.0
      {
        if pos[i] && i + 2 < |r| {
          ReturnAboveMinusOne(b.open[i + 1], b.open[i + 2]);
        }
      }
    }
    r
  }

  // ---------------------------------------------------------------------
  // count_trades, count_winning_trades

  /** `positions.diff() == 1` on a boolean series. The diff of booleans is
      their exclusive or (NaN on the first bar), so this fires on every
      change of position: entries and exits alike. */
  predicate Changed(pos: seq<bool>, i: int)
  {
    1 <= i < |pos| && pos[i] != pos[i - 1]
  }

  /** A false-to-true change: the strategy enters a position. */
  predicate Entered(pos: seq<bool>, i: int)
  {
    1 <= i < |pos| && pos[i] && !pos[i - 1]
  }

  /** A true-to-false change: the strategy leaves a position. */
  predicate Exited(pos: seq<bool>, i: int)
  {
    1 <= i < |pos| && !pos[i] && pos[i - 1]
  }

  /** The boolean diff as pandas computes it. */
  function Diff(pos: seq<bool>): (d: seq<Option<bool>>)
    ensures |d| == |pos|
  {
    seq(|pos|, i requires 0 <= i < |pos| => if i == 0 then None else Some(pos[i] != pos[i - 1]))
  }

  /** The bars `positions.diff() == 1` selects. */
  function ChangeFlags(pos: seq<bool>): (e: seq<bool>)
    ensures |e| == |pos|
    ensures forall i :: 0 <= i < |pos| ==> (e[i] <==> Changed(pos, i))
  {
    var d := Diff(pos);
    seq(|pos|, i requires 0 <= i < |pos| => d[i] == Some(true))
  }

  /** count_trades: the number of position changes. It is zero exactly for
      constant positions and never counts the first bar. */
  function CountTrades(pos: seq<bool>): (t: nat)
    ensures t == 0 <==> forall i :: 1 <= i < |pos| ==> pos[i] == pos[i - 1]
    ensures |pos| > 0 ==> t <= |pos| - 1
  {
    var e := ChangeFlags(pos);
    CountZero(e);
    CountBound(e);
    assert (forall i :: 0 <= i < |e| ==> !e[i]) <==> forall i :: 1 <= i < |pos| ==> pos[i] == pos[i - 1] by {
      if forall i :: 0 <= i < |e| ==> !e[i] {
        forall i | 1 <= i < |pos|
          ensures pos[i] == pos[i - 1]
        {
          assert !e[i];
        }
      }
      if forall i :: 1 <= i < |pos| ==> pos[i] == pos[i - 1] {
        forall i | 0 <= i < |e|
          ensures !e[i]
        {
          assert !Changed(pos, i);
        }
      }
    }
    Count(e)
  }

  /** The trade counter counts both the entries and the exits. */
  lemma TradesAreEntriesPlusExits(pos: seq<bool>)
    ensures CountTrades(pos) ==
      Count(seq(|pos|, i requires 0 <= i < |pos| => Entered(pos, i)))
      + Count(seq(|pos|, i requires 0 <= i < |pos| => Exited(pos, i)))
  {
    CountSplit(ChangeFlags(pos),
      seq(|pos|, i requires 0 <= i < |pos| => Entered(pos, i)),
      seq(|pos|, i requires 0 <= i < |pos| => Exited(pos, i)));
  }

  /** count_winning_trades: the number of bars with a positive strategy
      return; zero exactly when nothing was gained. */
  function CountWinningTrades(r: seq<real>): (w: nat)
    ensures w <= |r|
    ensures w == 0 <==> forall i :: 0 <= i < |r| ==> r[i] <= 0.0
  {
    var f := Winners(r);
    CountZero(f);
    CountBound(f);
    assert (forall i :: 0 <= i < |f| ==> !f[i]) <==> forall i :: 0 <= i < |r| ==> r[i] <= 0.0 by {
      if forall i :: 0 <= i < |f| ==> !f[i] {
        forall i | 0 <= i < |r|
          ensures r[i] <= 0.0
        {
          assert !f[i];
        }
      }
    }
    Count(f)
  }

  /** `strat_rets > 0`: the bars with a positive return. */
  function Winners(r: seq<real>): seq<bool>
  {
    seq(|r|, i requires 0 <= i < |r| => r[i] > 0.0)
  }

  /** The winning count grows by one for each positive return appended and
      stays put otherwise; together with the empty series counting zero
      this makes it the number of positive returns. */
  lemma WinnersAppend(r: seq<real>, x: real)
    ensures CountWinningTrades(r + [x]) == CountWinningTrades(r) + (if x > 0.0 then 1 else 0)
  {
    assert Winners(r + [x]) == Winners(r) + [x > 0.0];
    CountAppend(Winners(r), x > 0.0);
  }

  // ---------------------------------------------------------------------
  // calculate_max_drawdown, calculate_equity_curve

  /** `(1 + r).cumprod()` at offset `i`. */
  function GrowthAt(r: seq<real>, i: nat): real
    requires i < |r|
  {
    if i == 0 then 1.0 + r[0] else GrowthAt(r, i - 1) * (1.0 + r[i])
  }

  /** The cumulative growth stays positive while every return is above -1. */
  lemma {:induction false} GrowthPositive(r: seq<real>, i: nat)
    requires forall k :: 0 <= k < |r| ==> r[k] > -1.0
    requires i < |r|
    ensures GrowthAt(r, i) > 0.0
  {
    if i > 0 {
      GrowthPositive(r, i - 1);
      var g := GrowthAt(r, i - 1);
      var f := 1.0 + r[i];
      assert g > 0.0 && f > 0.0;
      assert g * f > 0.0;
    }
  }

  /** The cumulative growth series. */
  function Growth(r: seq<real>): (c: seq<real>)
    ensures |c| == |r|
  {
    seq(|r|, i requires 0 <= i < |r| => GrowthAt(r, i))
  }

  /** Returns above -1 keep every point of the growth series positive. */
  lemma GrowthSeriesPositive(r: seq<real>)
    requires forall k :: 0 <= k < |r| ==> r[k] > -1.0
    ensures Positive(Growth(r))
  {
    forall i | 0 <= i < |r|
      ensures Growth(r)[i] > 0.0
    {
      GrowthPositive(r, i);
    }
  }

  /** `cummax()` at offset `j`. */
  function PeakAt(c: seq<real>, j: nat): real
    requires j < |c|
  {
    if j == 0 then c[0]
    else if c[j] > PeakAt(c, j - 1) then c[j] else PeakAt(c, j - 1)
  }

  /** The running maximum bounds every earlier value ... */
  lemma {:induction false} PeakBounds(c: seq<real>, k: nat, j: nat)
    requires k <= j < |c|
    ensures c[k] <= PeakAt(c, j)
  {
    if k < j {
      PeakBounds(c, k, j - 1);
    }
  }

  /** ... and is one of them. */
  lemma {:induction false} PeakAttained(c: seq<real>, j: nat) returns (k: nat)
    requires j < |c|
    ensures k <= j && PeakAt(c, j) == c[k]
  {
    if j > 0 && c[j] <= PeakAt(c, j - 1) {
      k := PeakAttained(c, j - 1);
    } else {
      k := j;
    }
  }

  lemma ScaleMonotone(a: real, b: real, m: real)
    requires a <= b && m > 0.0
    ensures a * m <= b * m
  {
    assert (b - a) * m >= 0.0;
  }

  /** A positive value at or below its peak lies less than 100% under it. */
  lemma RelativeDrop(g: real, m: real)
    requires 0.0 < g <= m
    ensures -1.0 < (g - m) / m <= 0.0
    ensures g == m * (1.0 + (g - m) / m)
  {
    var d := (g - m) / m;
    assert d * m == g - m;
    if d <= -1.0 {
      ScaleMonotone(d, -1.0, m);
      assert false;
    }
    if d > 0.0 {
      ScaleMonotone(0.0, d, m);
      assert false;
    }
  }

  /** The relative drawdown `(cum - running_max) / running_max` at `j`:
      at most 0 and above -1. */
  function DrawdownAt(c: seq<real>, j: nat): (d: real)
    requires Positive(c) && j < |c|
    ensures -1.0 < d <= 0.0
  {
    PeakBounds(c, j, j);
    RelativeDrop(c[j], PeakAt(c, j));
    (c[j] - PeakAt(c, j)) / PeakAt(c, j)
  }

  /** The drawdown at `j` rebuilds the growth from its running peak. */
  lemma DrawdownRebuilds(c: seq<real>, j: nat)
    requires Positive(c) && j < |c|
    ensures c[j] == PeakAt(c, j) * (1.0 + DrawdownAt(c, j))
  {
    PeakBounds(c, j, j);
    RelativeDrop(c[j], PeakAt(c, j));
  }

  /** `drawdowns.min()` over offsets `0..j`. */
  function WorstDrawdown(c: seq<real>, j: nat): (w: real)
    requires Positive(c) && j < |c|
    ensures -1.0 < w <= 0.0
  {
    if j == 0 then DrawdownAt(c, 0)
    else
      var w := WorstDrawdown(c, j - 1);
      var d := DrawdownAt(c, j);
      if d < w then d else w
  }

  /** The minimum is a lower bound of the drawdowns ... */
  lemma {:induction false} WorstBelow(c: seq<real>, j: nat, k: nat)
    requires Positive(c) && k <= j < |c|
    ensures WorstDrawdown(c, j) <= DrawdownAt(c, k)
  {
    if k < j {
      WorstBelow(c, j - 1, k);
    }
  }

  /** ... and one of them. */
  lemma {:induction false} WorstAttained(c: seq<real>, j: nat) returns (k: nat)
    requires Positive(c) && j < |c|
    ensures k <= j && WorstDrawdown(c, j) == DrawdownAt(c, k)
  {
    if j == 0 || DrawdownAt(c, j) < WorstDrawdown(c, j - 1) {
      k := j;
    } else {
      k := WorstAttained(c, j - 1);
    }
  }

  /** calculate_max_drawdown in percent; None for an empty series, where
      pandas yields NaN. It lies in [0, 100) as equity never reaches 0. */
  function MaxDrawdown(r: seq<real>): (d: Option<real>)
    requires forall i :: 0 <= i < |r| ==> r[i] > -1.0
    ensures d.None? <==> |r| == 0
    ensures d.Some? ==> 0.0 <= d.value < 100.0
  {
    if |r| == 0 then None
    else
      GrowthSeriesPositive(r);
      Some(Abs(WorstDrawdown(Growth(r), |r| - 1) * 100.0))
  }

  /** The drawdown in percent is the worst drawdown as a fraction. */
  lemma MaxDrawdownIsWorst(r: seq<real>)
    requires forall i :: 0 <= i < |r| ==> r[i] > -1.0
    requires |r| > 0
    ensures Positive(Growth(r))
    ensures -MaxDrawdown(r).value / 100.0 == WorstDrawdown(Growth(r), |r| - 1)
  {
    GrowthSeriesPositive(r);
  }

  /** `x` lies below `base` by at most the fraction `-w`. */
  predicate FallsAtMost(base: real, x: real, w: real)
  {
    x >= base * (1.0 + w)
  }

  /** `x` lies below `base` by exactly the fraction `-w`. */
  predicate FallsExactly(base: real, x: real, w: real)
  {
    x == base * (1.0 + w)
  }

  /** A value lies below any earlier one by at most any bound `w` on its
      own drawdown, since the earlier value is at most the running peak. */
  lemma DeclineWithin(c: seq<real>, i: nat, j: nat, w: real)
    requires Positive(c) && i <= j < |c|
    requires w <= DrawdownAt(c, j)
    ensures FallsAtMost(c[i], c[j], w)
  {
    DrawdownRebuilds(c, j);
    PeakBounds(c, i, j);
    DeclineStep(c[i], c[j], PeakAt(c, j), DrawdownAt(c, j), w);
  }

  /** The arithmetic of DeclineWithin: `cj`, a relative drop `d` under the
      peak `m`, lies at most `-w` below any `ci <= m` when `w <= d`. */
  lemma DeclineStep(ci: real, cj: real, m: real, d: real, w: real)
    requires 0.0 < ci <= m && cj == m * (1.0 + d) && -1.0 < d && w <= d
    ensures FallsAtMost(ci, cj, w)
  {
    ScaleMonotone(ci, m, 1.0 + d);
    ScaleMonotone(1.0 + w, 1.0 + d, ci);
    var low, high := ci * (1.0 + w), ci * (1.0 + d);
    assert low <= high <= cj;
  }

  /** A value lies below the peak it attains by exactly its drawdown. */
  lemma DeclineExact(c: seq<real>, i: nat, j: nat, w: real)
    requires Positive(c) && i <= j < |c|
    requires PeakAt(c, j) == c[i] && w == DrawdownAt(c, j)
    ensures FallsExactly(c[i], c[j], w)
  {
    DrawdownRebuilds(c, j);
  }

  /** In a positive series, no later value falls further below an earlier
      one than the worst drawdown allows. */
  lemma SeriesDeclineBound(c: seq<real>, i: nat, j: nat)
    requires Positive(c) && i <= j < |c|
    ensures FallsAtMost(c[i], c[j], WorstDrawdown(c, |c| - 1))
  {
    WorstBelow(c, |c| - 1, j);
    DeclineWithin(c, i, j, WorstDrawdown(c, |c| - 1));
  }

  /** In a positive series, the worst drawdown is a decline from an
      earlier value to a later one. */
  lemma SeriesDeclineAttained(c: seq<real>) returns (i: nat, j: nat)
    requires Positive(c) && |c| > 0
    ensures i <= j < |c| && FallsExactly(c[i], c[j], WorstDrawdown(c, |c| - 1))
  {
    j := WorstAttained(c, |c| - 1);
    i := PeakAttained(c, j);
    DeclineExact(c, i, j, WorstDrawdown(c, |c| - 1));
  }

  /** The drawdown bounds every decline of the cumulative growth: for
      every `i <= j`, `growth[j] >= growth[i] * (1 - max_dd / 100)`. */
  lemma DrawdownBoundsDecline(r: seq<real>, i: nat, j: nat)
    requires forall k :: 0 <= k < |r| ==> r[k] > -1.0
    requires i <= j < |r|
    ensures FallsAtMost(Growth(r)[i], Growth(r)[j], -MaxDrawdown(r).value / 100.0)
  {
    MaxDrawdownIsWorst(r);
    SeriesDeclineBound(Growth(r), i, j);
  }

  /** ... and some decline reaches it exactly. */
  lemma DrawdownAttained(r: seq<real>) returns (i: nat, j: nat)
    requires forall k :: 0 <= k < |r| ==> r[k] > -1.0
    requires |r| > 0
    ensures i <= j < |r| && FallsExactly(Growth(r)[i], Growth(r)[j], -MaxDrawdown(r).value / 100.0)
  {
    MaxDrawdownIsWorst(r);
    i, j := SeriesDeclineAttained(Growth(r));
  }

  /** With no nonzero return the cumulative growth stays at 1. */
  lemma {:induction false} FlatGrowth(r: seq<real>, i: nat)
    requires forall k :: 0 <= k < |r| ==> r[k] == 0.0
    requires i < |r|
    ensures GrowthAt(r, i) == 1.0
  {
    if i > 0 {
      FlatGrowth(r, i - 1);
    }
  }

  /** All-zero returns give zero drawdown. */
  lemma FlatReturnsNoDrawdown(r: seq<real>)
    requires forall i :: 0 <= i < |r| ==> r[i] == 0.0
    requires |r| > 0
    ensures MaxDrawdown(r) == Some(0.0)
  {
    MaxDrawdownIsWorst(r);
    var c := Growth(r);
    var j := WorstAttained(c, |r| - 1);
    var k := PeakAttained(c, j);
    FlatGrowth(r, j);
    FlatGrowth(r, k);
    assert c[j] == 1.0 && c[k] == 1.0;
  }

  /** One row of the equity curve frame. */
  datatype EquityPoint = EquityPoint(equity: real, ret: real)

  /** calculate_equity_curve: equity starts from the initial balance and
      compounds each bar's return; the returns column is carried along. */
  function EquityCurve(r: seq<real>): (e: seq<EquityPoint>)
    ensures |e| == |r|
    ensures forall i :: 0 <= i < |r| ==> e[i].ret == r[i]
    ensures |r| > 0 ==> e[0].equity == InitialBalance * (1.0 + r[0])
    ensures forall i :: 0 < i < |r| ==> e[i].equity == e[i - 1].equity * (1.0 + r[i])
  {
    seq(|r|, i requires 0 <= i < |r| => EquityPoint(InitialBalance * GrowthAt(r, i), r[i]))
  }

  /** Equity stays positive while no return reaches -1. */
  lemma EquityPositive(r: seq<real>)
    requires forall i :: 0 <= i < |r| ==> r[i] > -1.0
    ensures forall i :: 0 <= i < |r| ==> EquityCurve(r)[i].equity > 0.0
  {
    forall i | 0 <= i < |r|
      ensures EquityCurve(r)[i].equity > 0.0
    {
      GrowthPositive(r, i);
    }
  }

  /** All-zero returns leave the equity at the initial balance. */
  lemma FlatEquity(r: seq<real>)
    requires forall i :: 0 <= i < |r| ==> r[i] == 0.0
    ensures forall i :: 0 <= i < |r| ==> EquityCurve(r)[i].equity == InitialBalance
  {
    forall i | 0 <= i < |r|
      ensures EquityCurve(r)[i].equity == InitialBalance
    {
      FlatGrowth(r, i);
    }
  }

  // ---------------------------------------------------------------------
  // calculate_profit_factor

  datatype ProfitFactor = Finite(value: real) | Infinite

  /** calculate_profit_factor: gains over the magnitude of the losses;
      infinite with gains and no losses, 0 with neither. */
  function CalculateProfitFactor(r: seq<real>): (pf: ProfitFactor)
    ensures pf.Infinite? <==> (forall i :: 0 <= i < |r| ==> r[i] >= 0.0) && exists i :: 0 <= i < |r| && r[i] > 0.0
    ensures (forall i :: 0 <= i < |r| ==> r[i] == 0.0) ==> pf == Finite(0.0)
    ensures pf.Finite? ==> pf.value >= 0.0
    ensures (exists i :: 0 <= i < |r| && r[i] < 0.0) ==>
      SumNegative(r) < 0.0 && pf == Finite(SumPositive(r) / -SumNegative(r))
  {
    var gains := SumPositive(r);
    var losses := Abs(SumNegative(r));
    SumPositiveSign(r);
    SumNegativeSign(r);
    if losses == 0.0 then (if gains > 0.0 then Infinite else Finite(0.0))
    else Finite(gains / losses)
  }

  // ---------------------------------------------------------------------
  // get_trade_log

  datatype TradeRow = TradeRow(entryTime: int, entryPrice: real, exitPrice: real,
                               ret: real, profitPct: real, profitUsd: real)

  /** The row logged for offset `i`: entry at the next bar's open, exit at
      the open after, the return with its percent and dollar figures. */
  function RowAt(b: Bars, i: nat): (row: TradeRow)
    requires Aligned(b) && Positive(b.open) && i + 2 < b.Length()
    ensures row.entryTime == b.time[i]
    ensures row.entryPrice == b.open[i + 1] && row.exitPrice == b.open[i + 2]
    ensures row.ret == (row.exitPrice - row.entryPrice) / row.entryPrice
    ensures row.profitPct == row.ret * 100.0 && row.profitUsd == row.ret * Volume
  {
    var entry := b.open[i + 1];
    var exit := b.open[i + 2];
    var ret := (exit - entry) / entry;
    TradeRow(b.time[i], entry, exit, ret, ret * 100.0, ret * Volume)
  }

  /** A change of position with two more bars after it. */
  predicate Loggable(pos: seq<bool>, i: int)
  {
    Changed(pos, i) && i + 2 < |pos|
  }

  /** The offsets the trade log visits, in order. */
  function LoggedOffsets(pos: seq<bool>): (L: seq<nat>)
    ensures Increasing(L)
    ensures forall k :: 0 <= k < |L| ==> Loggable(pos, L[k])
    ensures forall i :: Loggable(pos, i) ==> i in L
    ensures |L| <= CountTrades(pos)
  {
    var e := ChangeFlags(pos);
    var s := seq(|pos|, i requires 0 <= i < |pos| => e[i] && i + 2 < |pos|);
    CountSplit(e, s, seq(|pos|, i requires 0 <= i < |pos| => e[i] && !s[i]));
    TrueOffsets(s)
  }

  /** `row` is the row logged for some loggable offset. */
  ghost predicate LoggedRow(b: Bars, pos: seq<bool>, row: TradeRow)
    requires Aligned(b) && Positive(b.open) && |pos| == b.Length()
  {
    exists i :: Loggable(pos, i) && row == RowAt(b, i)
  }

  /** The rows logged at the offsets `L`, in the order of `L`; increasing
      offsets over increasing timestamps give increasing entry times. */
  function RowsAt(b: Bars, L: seq<nat>): (rows: seq<TradeRow>)
    requires Aligned(b) && Positive(b.open)
    requires forall k :: 0 <= k < |L| ==> L[k] + 2 < b.Length()
    ensures |rows| == |L|
    ensures forall k :: 0 <= k < |L| ==> rows[k] == RowAt(b, L[k])
    ensures WellFormed(b) && Increasing(L) ==> forall k, l :: 0 <= k < l < |rows| ==> rows[k].entryTime < rows[l].entryTime
  {
    var rows := seq(|L|, k requires 0 <= k < |L| => RowAt(b, L[k]));
    assert WellFormed(b) && Increasing(L) ==> forall k, l :: 0 <= k < l < |rows| ==> rows[k].entryTime < rows[l].entryTime by {
      if WellFormed(b) && Increasing(L) {
        forall k, l | 0 <= k < l < |rows|
          ensures rows[k].entryTime < rows[l].entryTime
        {
          assert L[k] < L[l];
          assert L[k] + 2 < b.Length() && L[l] + 2 < b.Length();
          assert b.time[L[k]] < b.time[L[l]];
          assert rows[k].entryTime == b.time[L[k]] && rows[l].entryTime == b.time[L[l]];
        }
      }
    }
    rows
  }

  /** get_trade_log: one row per change of position with two more bars
      after it, in bar order; nothing else is logged. */
  function TradeLog(b: Bars, pos: seq<bool>): (log: seq<TradeRow>)
    requires Aligned(b) && Positive(b.open) && |pos| == b.Length()
    ensures forall k :: 0 <= k < |log| ==> LoggedRow(b, pos, log[k])
    ensures forall i :: Loggable(pos, i) ==> RowAt(b, i) in log
    ensures |log| <= CountTrades(pos)
    ensures WellFormed(b) ==> forall k, l :: 0 <= k < l < |log| ==> log[k].entryTime < log[l].entryTime
  {
    var L := LoggedOffsets(pos);
    RowsLogged(b, pos, L);
    RowsCover(b, pos, L);
    RowsAt(b, L)
  }

  /** Rows taken at loggable offsets are logged rows. */
  lemma RowsLogged(b: Bars, pos: seq<bool>, L: seq<nat>)
    requires Aligned(b) && Positive(b.open) && |pos| == b.Length()
    requires forall k :: 0 <= k < |L| ==> Loggable(pos, L[k]) && L[k] + 2 < b.Length()
    ensures forall k :: 0 <= k < |L| ==> LoggedRow(b, pos, RowsAt(b, L)[k])
  {
    var log := RowsAt(b, L);
    forall k | 0 <= k < |log|
      ensures LoggedRow(b, pos, log[k])
    {
      assert Loggable(pos, L[k]) && log[k] == RowAt(b, L[k]);
    }
  }

  /** Rows taken at every loggable offset include each loggable row. */
  lemma RowsCover(b: Bars, pos: seq<bool>, L: seq<nat>)
    requires Aligned(b) && Positive(b.open) && |pos| == b.Length()
    requires forall k :: 0 <= k < |L| ==> Loggable(pos, L[k]) && L[k] + 2 < b.Length()
    requires forall i :: Loggable(pos, i) ==> i in L
    ensures forall i :: Loggable(pos, i) ==> RowAt(b, i) in RowsAt(b, L)
  {
    var log := RowsAt(b, L);
    forall i | Loggable(pos, i)
      ensures RowAt(b, i) in log
    {
      var k :| 0 <= k < |L| && L[k] == i;
      assert log[k] == RowAt(b, i);
    }
  }

  /** At an entry the logged return is the strategy's return on that bar. */
  lemma EntryRowMatchesReturn(b: Bars, pos: seq<bool>, i: nat)
    requires Aligned(b) && Positive(b.open) && |pos| == b.Length()
    requires Entered(pos, i) && i + 2 < |pos|
    ensures RowAt(b, i) in TradeLog(b, pos)
    ensures RowAt(b, i).ret == CalculateReturns(b, pos)[i]
  {
    assert Loggable(pos, i);
  }

  /** The log also records exits: a true-to-false change gets a row even
      though the strategy holds nothing on that bar. */
  lemma TradeLogRecordsExits(b: Bars, pos: seq<bool>, i: nat)
    requires Aligned(b) && Positive(b.open) && |pos| == b.Length()
    requires Exited(pos, i) && i + 2 < |pos|
    ensures RowAt(b, i) in TradeLog(b, pos)
    ensures CalculateReturns(b, pos)[i] == 0.0
  {
    assert Loggable(pos, i);
  }

  // ---------------------------------------------------------------------
  // Portfolio, from_signals

  /** What the Portfolio constructor derives from bars and positions
      (the statistics table aside). */
  datatype PortfolioState = PortfolioState(
    positions: seq<bool>,
    strategyReturns: seq<real>,
    equity: seq<EquityPoint>,
    trades: nat,
    winningTrades: nat,
    maxDrawdown: Option<real>,
    profitFactor: ProfitFactor,
    tradeLog: seq<TradeRow>)

  /** The statistics the constructor derives from the positions and their
      returns, around an already built trade log. */
  function Summarise(pos: seq<bool>, r: seq<real>, log: seq<TradeRow>): (p: PortfolioState)
    requires |r| == |pos| && forall i :: 0 <= i < |r| ==> r[i] > -1.0
    ensures p.positions == pos && p.strategyReturns == r && p.tradeLog == log
    ensures p.equity == EquityCurve(r) && |p.equity| == |pos|
    ensures p.trades == CountTrades(pos) && p.winningTrades == CountWinningTrades(r)
    ensures p.maxDrawdown == MaxDrawdown(r) && p.profitFactor == CalculateProfitFactor(r)
    ensures p.maxDrawdown.Some? <==> |pos| > 0
    ensures p.trades <= |pos| && p.winningTrades <= |pos|
  {
    PortfolioState(pos, r, EquityCurve(r), CountTrades(pos), CountWinningTrades(r),
                   MaxDrawdown(r), CalculateProfitFactor(r), log)
  }

  /** Portfolio(data, positions): a bar earns a nonzero return only while
      in position with two more bars to go. */
  function NewPortfolio(b: Bars, pos: seq<bool>): (p: PortfolioState)
    requires Aligned(b) && Positive(b.open) && |pos| == b.Length()
    ensures p.positions == pos && |p.strategyReturns| == |pos| && |p.equity| == |pos|
    ensures p.strategyReturns == CalculateReturns(b, pos) && p.tradeLog == TradeLog(b, pos)
    ensures p.equity == EquityCurve(p.strategyReturns)
    ensures p.trades == CountTrades(pos) && p.winningTrades == CountWinningTrades(p.strategyReturns)
    ensures p.maxDrawdown == MaxDrawdown(p.strategyReturns) && p.profitFactor == CalculateProfitFactor(p.strategyReturns)
    ensures forall i :: 0 <= i < |pos| && !(pos[i] && i + 2 < |pos|) ==> p.strategyReturns[i] == 0.0
    ensures p.maxDrawdown.Some? <==> |pos| > 0
    ensures p.trades <= |pos| && p.winningTrades <= |pos|
  {
    Summarise(pos, CalculateReturns(b, pos), TradeLog(b, pos))
  }

  /** from_signals: positions from the signals, then the portfolio. A bar
      is in position, and can earn a return, only while the last seed at
      or before it is a buy. */
  function FromSignals(b: Bars, buy: seq<bool>, sell: seq<bool>): (p: PortfolioState)
    requires Aligned(b) && Positive(b.open) && |buy| == b.Length() && |sell| == b.Length()
    ensures |p.positions| == b.Length() && |p.strategyReturns| == b.Length()
    ensures forall i :: 0 <= i < b.Length() ==> (p.positions[i] <==> HeldAt(buy, sell, i))
    ensures forall i :: 0 <= i < b.Length() && p.strategyReturns[i] != 0.0 ==> HeldAt(buy, sell, i)
    ensures p == NewPortfolio(b, p.positions)
  {
    var pos := SignalsToPositions(buy, sell);
    assert forall i :: 0 <= i < b.Length() ==> (pos[i] <==> HeldAt(buy, sell, i)) by {
      forall i | 0 <= i < b.Length()
        ensures pos[i] <==> HeldAt(buy, sell, i)
      {
        PositionIsLastSeed(buy, sell, i);
      }
    }
    NewPortfolio(b, pos)
  }

  /** Without any buy signal the backtest stays flat: no return, no trade,
      no drawdown, a profit factor of 0, an empty log and the equity at the
      initial balance throughout. */
  lemma NoBuyNoActivity(b: Bars, buy: seq<bool>, sell: seq<bool>)
    requires Aligned(b) && Positive(b.open) && |buy| == b.Length() && |sell| == b.Length()
    requires forall i :: 0 <= i < |buy| ==> !buy[i]
    requires b.Length() > 0
    ensures var p := FromSignals(b, buy, sell);
      && (forall i :: 0 <= i < b.Length() ==> !p.positions[i] && p.strategyReturns[i] == 0.0)
      && p.trades == 0 && p.winningTrades == 0
      && p.maxDrawdown == Some(0.0)
      && p.profitFactor == Finite(0.0)
      && (forall i :: 0 <= i < b.Length() ==> p.equity[i].equity == InitialBalance)
      && |p.tradeLog| == 0
  {
    var pos := SignalsToPositions(buy, sell);
    forall i | 0 <= i < b.Length()
      ensures !pos[i]
    {
      FlatBeforeFirstBuy(buy, sell, i);
    }
    var r := CalculateReturns(b, pos);
    assert forall i :: 0 <= i < |r| ==> r[i] == 0.0;
    FlatReturnsNoDrawdown(r);
    FlatEquity(r);
    assert CountTrades(pos) == 0;
  }
}
