/** The two pattern strategies (backtester/src/strategies/
    double_top_bottom_strategy.py): their configuration defaults, the way
    they turn detected patterns into buy and sell signals, and the backtest
    that feeds those signals to the portfolio. */
module Strategies {
  import opened Wrappers
  import opened Series
  import opened Frame
  import opened DoublePatterns
  import opened Portfolio

  /** The strategy's `config` dictionary: a present key overrides the
      default, an absent one (None) keeps it. */
  datatype Config = Config(
    tolerance: Option<real>,
    minBarsBetween: Option<int>,
    maxBarsBetween: Option<int>,
    peakOrder: Option<int>,
    troughOrder: Option<int>,
    holdBars: Option<int>,
    stopLossPct: Option<real>)

  /** The empty configuration. */
  const NoOverrides := Config(None, None, None, None, None, None, None)

  /** `config.get(key, default)`. */
  function Get<T>(o: Option<T>, default: T): (r: T)
    ensures o.Some? ==> r == o.value
    ensures o.None? ==> r == default
  {
    match o
    case Some(x) => x
    case None => default
  }

  /** Parameters of DoubleTopBottomStrategy after `configure`. */
  datatype TopBottomParams = TopBottomParams(
    tolerance: real, minBarsBetween: int, maxBarsBetween: int, peakOrder: int, troughOrder: int)

  /** Parameters of DoubleBottomOnlyStrategy after `configure`. */
  datatype BottomOnlyParams = BottomOnlyParams(
    tolerance: real, minBarsBetween: int, maxBarsBetween: int, troughOrder: int,
    holdBars: int, stopLossPct: real)

  /** DoubleTopBottomStrategy.configure. */
  function ConfigureTopBottom(c: Config): (p: TopBottomParams)
  {
    TopBottomParams(Get(c.tolerance, 0.02), Get(c.minBarsBetween, 10), Get(c.maxBarsBetween, 100),
                    Get(c.peakOrder, 5), Get(c.troughOrder, 5))
  }

  /** DoubleBottomOnlyStrategy.configure. */
  function ConfigureBottomOnly(c: Config): (p: BottomOnlyParams)
  {
    BottomOnlyParams(Get(c.tolerance, 0.02), Get(c.minBarsBetween, 10), Get(c.maxBarsBetween, 100),
                     Get(c.troughOrder, 5), Get(c.holdBars, 20), Get(c.stopLossPct, 0.03))
  }

  /** Without overrides both strategies use a 2% tolerance, 10 to 100 bars
      between the extrema and order 5; the long-only one holds for 20 bars
      with a 3% stop loss. */
  lemma DefaultConfiguration()
    ensures ConfigureTopBottom(NoOverrides) == TopBottomParams(0.02, 10, 100, 5, 5)
    ensures ConfigureBottomOnly(NoOverrides) == BottomOnlyParams(0.02, 10, 100, 5, 20, 0.03)
  {
  }

  /** Every override reaches the parameters unchanged; the orders and
      the hold period are not validated. */
  lemma OverridesWin(c: Config)
    requires c.tolerance.Some? && c.minBarsBetween.Some? && c.maxBarsBetween.Some?
    requires c.peakOrder.Some? && c.troughOrder.Some? && c.holdBars.Some? && c.stopLossPct.Some?
    ensures ConfigureTopBottom(c) == TopBottomParams(c.tolerance.value, c.minBarsBetween.value,
      c.maxBarsBetween.value, c.peakOrder.value, c.troughOrder.value)
    ensures ConfigureBottomOnly(c) == BottomOnlyParams(c.tolerance.value, c.minBarsBetween.value,
      c.maxBarsBetween.value, c.troughOrder.value, c.holdBars.value, c.stopLossPct.value)
  {
  }

  /** The buy and sell series `generate_signals` returns. */
  datatype Signals = Signals(buy: seq<bool>, sell: seq<bool>)

  /** The high and low columns of a well-formed frame can be analysed. */
  lemma WellFormedColumns(b: Bars)
    requires WellFormed(b)
    ensures PositiveColumn(b, "high") && PositiveColumn(b, "low")
  {
  }

  // ---------------------------------------------------------------------
  // DoubleTopBottomStrategy

  /** calculate_indicators then generate_signals of DoubleTopBottomStrategy:
      double tops on the highs are detected first, then double bottoms on
      the lows; a double bottom is a buy and a double top a sell. */
  function TopBottomSignals(b: Bars, p: TopBottomParams): (r: Result<Signals>)
    requires WellFormed(b)
    ensures r.Err? <==> p.peakOrder < 1 || p.troughOrder < 1
    ensures r.Err? ==> r.error == BadOrder(if p.peakOrder < 1 then p.peakOrder else p.troughOrder)
    ensures r.Ok? ==> |r.value.buy| == b.Length() && |r.value.sell| == b.Length()
    ensures r.Ok? ==> forall o :: 0 <= o < b.Length() ==>
      (r.value.buy[o] <==> Recorded(b, DoubleBottom, "low", p.troughOrder,
                                    PairRule(p.tolerance, p.minBarsBetween, p.maxBarsBetween), o))
    ensures r.Ok? ==> forall o :: 0 <= o < b.Length() ==>
      (r.value.sell[o] <==> Recorded(b, DoubleTop, "high", p.peakOrder,
                                     PairRule(p.tolerance, p.minBarsBetween, p.maxBarsBetween), o))
  {
    WellFormedColumns(b);
    var tops := DetectDoubleTop(b, "high", p.peakOrder, p.tolerance, p.minBarsBetween, p.maxBarsBetween);
    if tops.Err? then Err(tops.error)
    else
      var bottoms := DetectDoubleBottom(b, "low", p.troughOrder, p.tolerance, p.minBarsBetween, p.maxBarsBetween);
      if bottoms.Err? then Err(bottoms.error)
      else Ok(Signals(bottoms.value, tops.value))
  }

  // ---------------------------------------------------------------------
  // DoubleBottomOnlyStrategy

  /** `min(idx_pos + hold_bars, len(data) - 1)`. */
  function SellPosition(idx: nat, hold: int, n: nat): int
  {
    Min(idx + hold, n - 1)
  }

  /** `iloc[pos]` on a series of length `n`: a negative position counts
      from the end, and one below `-n` is out of range. */
  function ILoc(pos: int, n: nat): (q: Option<nat>)
    ensures q.Some? <==> -(n as int) <= pos < n
    ensures q.Some? ==> q.value < n && (q.value == pos || q.value == pos + n)
  {
    if 0 <= pos < n then Some(pos)
    else if -(n as int) <= pos < 0 then Some(pos + n)
    else None
  }

  /** The bar a buy at offset `o` sells on, if that bar exists. */
  function SellSlot(o: nat, hold: int, n: nat): Option<nat>
  {
    ILoc(SellPosition(o, hold, n), n)
  }

  /** Some buy at `B[k..]` places its sell on bar `i`. */
  predicate PlacedFrom(B: seq<nat>, k: nat, hold: int, n: nat, i: nat)
  {
    exists m :: k <= m < |B| && SellSlot(B[m], hold, n) == Some(i)
  }

  /** The loop over the buy offsets `B[k..]`, in order, setting
      `sell_signals.iloc[sell_pos] = True`; the first out-of-range
      position raises. */
  function PlaceSells(sell: seq<bool>, B: seq<nat>, k: nat, hold: int): (r: Result<seq<bool>>)
    requires k <= |B|
    decreases |B| - k
    ensures r.Err? <==> exists m :: k <= m < |B| && SellSlot(B[m], hold, |sell|).None?
    ensures r.Ok? ==> |r.value| == |sell|
    ensures r.Ok? ==> forall i :: 0 <= i < |sell| ==> (r.value[i] <==> sell[i] || PlacedFrom(B, k, hold, |sell|, i))
    ensures r.Ok? ==> Count(r.value) <= Count(sell) + (|B| - k)
  {
    if k == |B| then Ok(sell)
    else
      match SellSlot(B[k], hold, |sell|)
      case None => Err(IndexOutOfRange(SellPosition(B[k], hold, |sell|)))
      case Some(q) =>
        CountRaise(sell, q);
        var rest := PlaceSells(sell[q := true], B, k + 1, hold);
        assert rest.Ok? ==> forall i :: 0 <= i < |sell| ==> (rest.value[i] <==> sell[i] || PlacedFrom(B, k, hold, |sell|, i)) by {
          if rest.Ok? {
            forall i | 0 <= i < |sell|
              ensures rest.value[i] <==> sell[i] || PlacedFrom(B, k, hold, |sell|, i)
            {
              if PlacedFrom(B, k, hold, |sell|, i) && i != q {
                var m :| k <= m < |B| && SellSlot(B[m], hold, |sell|) == Some(i);
                assert m != k;
                assert PlacedFrom(B, k + 1, hold, |sell|, i);
              }
              if PlacedFrom(B, k + 1, hold, |sell|, i) {
                var m :| k + 1 <= m < |B| && SellSlot(B[m], hold, |sell|) == Some(i);
                assert PlacedFrom(B, k, hold, |sell|, i);
              }
              if i == q {
                assert PlacedFrom(B, k, hold, |sell|, i);
              }
            }
          }
        }
        rest
  }

  /** A flag sequence with nothing set. */
  function NoFlags(n: nat): (r: seq<bool>)
    ensures |r| == n && Count(r) == 0
  {
    var r := seq(n, i requires 0 <= i < n => false);
    CountZero(r);
    r
  }

  /** Some buy at offset `o` sells on bar `i`. */
  predicate SoldBy(buy: seq<bool>, hold: int, i: nat)
  {
    exists o :: 0 <= o < |buy| && buy[o] && SellSlot(o, hold, |buy|) == Some(i)
  }

  /** The placement loop run over every buy offset fails exactly when some
      buy's sell position is out of range ... */
  lemma PlacementFails(buy: seq<bool>, hold: int)
    ensures PlaceSells(NoFlags(|buy|), TrueOffsets(buy), 0, hold).Err?
      <==> exists o :: 0 <= o < |buy| && buy[o] && SellSlot(o, hold, |buy|).None?
  {
    var B := TrueOffsets(buy);
    if exists m :: 0 <= m < |B| && SellSlot(B[m], hold, |buy|).None? {
      var m :| 0 <= m < |B| && SellSlot(B[m], hold, |buy|).None?;
      assert buy[B[m]];
    }
    if exists o :: 0 <= o < |buy| && buy[o] && SellSlot(o, hold, |buy|).None? {
      var o :| 0 <= o < |buy| && buy[o] && SellSlot(o, hold, |buy|).None?;
      var m :| 0 <= m < |B| && B[m] == o;
    }
  }

  /** ... and otherwise flags exactly the bars some buy sells on. */
  lemma PlacementFlags(buy: seq<bool>, hold: int, i: nat)
    requires i < |buy|
    requires PlaceSells(NoFlags(|buy|), TrueOffsets(buy), 0, hold).Ok?
    ensures PlaceSells(NoFlags(|buy|), TrueOffsets(buy), 0, hold).value[i] <==> SoldBy(buy, hold, i)
  {
    var B := TrueOffsets(buy);
    var r := PlaceSells(NoFlags(|buy|), B, 0, hold);
    if r.value[i] {
      assert PlacedFrom(B, 0, hold, |buy|, i);
      var m :| 0 <= m < |B| && SellSlot(B[m], hold, |buy|) == Some(i);
      assert buy[B[m]];
    }
    if SoldBy(buy, hold, i) {
      var o :| 0 <= o < |buy| && buy[o] && SellSlot(o, hold, |buy|) == Some(i);
      var m :| 0 <= m < |B| && B[m] == o;
      assert PlacedFrom(B, 0, hold, |buy|, i);
    }
  }

  /** generate_signals of DoubleBottomOnlyStrategy on the double-bottom
      flags: the buys are a copy of the flags and every buy places a sell
      `hold_bars` later, clamped to the last bar. */
  function HoldSignals(buy: seq<bool>, hold: int): (r: Result<Signals>)
    ensures r.Err? <==> exists o :: 0 <= o < |buy| && buy[o] && o + hold < -|buy|
    ensures r.Err? ==> r.error.IndexOutOfRange? && r.error.position < -|buy|
    ensures r.Ok? ==> r.value.buy == buy && |r.value.sell| == |buy|
    ensures r.Ok? ==> forall i :: 0 <= i < |buy| ==> (r.value.sell[i] <==> SoldBy(buy, hold, i))
    ensures r.Ok? ==> Count(r.value.sell) <= Count(buy)
  {
    var placed := PlaceSells(NoFlags(|buy|), TrueOffsets(buy), 0, hold);
    PlacementFails(buy, hold);
    assert (exists o :: 0 <= o < |buy| && buy[o] && SellSlot(o, hold, |buy|).None?)
       <==> exists o :: 0 <= o < |buy| && buy[o] && o + hold < -|buy| by {
      forall o | 0 <= o < |buy|
        ensures SellSlot(o, hold, |buy|).None? <==> o + hold < -|buy|
      {
      }
    }
    if placed.Err? then
      PlaceSellsError(NoFlags(|buy|), TrueOffsets(buy), 0, hold);
      Err(placed.error)
    else
      assert forall i :: 0 <= i < |buy| ==> (placed.value[i] <==> SoldBy(buy, hold, i)) by {
        forall i | 0 <= i < |buy|
          ensures placed.value[i] <==> SoldBy(buy, hold, i)
        {
          PlacementFlags(buy, hold, i);
        }
      }
      Ok(Signals(buy, placed.value))
  }

  /** The error the placement loop raises names the out-of-range position. */
  lemma {:induction false} PlaceSellsError(sell: seq<bool>, B: seq<nat>, k: nat, hold: int)
    requires k <= |B|
    requires PlaceSells(sell, B, k, hold).Err?
    decreases |B| - k
    ensures PlaceSells(sell, B, k, hold).error.IndexOutOfRange?
    ensures PlaceSells(sell, B, k, hold).error.position < -|sell|
  {
    var q := SellSlot(B[k], hold, |sell|);
    if q.Some? {
      PlaceSellsError(sell[q.value := true], B, k + 1, hold);
    }
  }

  /** With a non-negative hold period every buy at `o` sells on bar
      `min(o + hold_bars, n - 1)`, which always exists. */
  lemma NonNegativeHoldSells(buy: seq<bool>, hold: int, i: nat)
    requires hold >= 0 && i < |buy|
    ensures HoldSignals(buy, hold).Ok?
    ensures HoldSignals(buy, hold).value.sell[i] <==>
      exists o :: 0 <= o < |buy| && buy[o] && Min(o + hold, |buy| - 1) == i
  {
    var r := HoldSignals(buy, hold);
    forall o | 0 <= o < |buy|
      ensures SellSlot(o, hold, |buy|) == Some(Min(o + hold, |buy| - 1))
    {
    }
  }

  /** Without a buy there is no sell. */
  lemma NoBuyNoSell(buy: seq<bool>, hold: int)
    requires forall o :: 0 <= o < |buy| ==> !buy[o]
    ensures HoldSignals(buy, hold).Ok?
    ensures forall i :: 0 <= i < |buy| ==> !HoldSignals(buy, hold).value.sell[i]
  {
  }

  /** calculate_indicators then generate_signals of
      DoubleBottomOnlyStrategy: double bottoms on the lows are the buys and
      each places a sell `hold_bars` later. The stop loss is read but not
      used. */
  function BottomOnlySignals(b: Bars, p: BottomOnlyParams): (r: Result<Signals>)
    requires WellFormed(b)
    ensures p.troughOrder < 1 ==> r == Err(BadOrder(p.troughOrder))
    ensures p.troughOrder >= 1 && p.holdBars >= 0 ==> r.Ok?
    ensures r.Ok? ==> r.value.buy == DetectDoubleBottom(b, "low", p.troughOrder, p.tolerance,
                                                        p.minBarsBetween, p.maxBarsBetween).value
    ensures p.troughOrder >= 1 ==>
      && DetectDoubleBottom(b, "low", p.troughOrder, p.tolerance, p.minBarsBetween, p.maxBarsBetween).Ok?
      && (r.Err? <==>
            exists o :: 0 <= o < b.Length()
              && DetectDoubleBottom(b, "low", p.troughOrder, p.tolerance, p.minBarsBetween, p.maxBarsBetween).value[o]
              && o + p.holdBars < -(b.Length() as int))
    ensures r.Ok? ==> |r.value.buy| == b.Length() && |r.value.sell| == b.Length()
    ensures r.Ok? ==> forall i :: 0 <= i < b.Length() ==> (r.value.sell[i] <==> SoldBy(r.value.buy, p.holdBars, i))
    ensures r.Ok? ==> Count(r.value.sell) <= Count(r.value.buy)
  {
    WellFormedColumns(b);
    var bottoms := DetectDoubleBottom(b, "low", p.troughOrder, p.tolerance, p.minBarsBetween, p.maxBarsBetween);
    if bottoms.Err? then Err(bottoms.error)
    else HoldSignals(bottoms.value, p.holdBars)
  }

  /** `stop_loss_pct` has no effect on the signals. */
  lemma StopLossUnused(b: Bars, p: BottomOnlyParams, stopLoss: real)
    requires WellFormed(b)
    ensures BottomOnlySignals(b, p) == BottomOnlySignals(b, p.(stopLossPct := stopLoss))
  {
  }

  // ---------------------------------------------------------------------
  // BaseStrategy.backtest

  /** backtest for DoubleTopBottomStrategy: configure, detect, signal, and
      hand the signals to Portfolio.from_signals. A position is only ever
      held from a confirmed double bottom on. */
  function BacktestTopBottom(b: Bars, c: Config): (r: Result<PortfolioState>)
    requires WellFormed(b)
    ensures r.Err? <==> ConfigureTopBottom(c).peakOrder < 1 || ConfigureTopBottom(c).troughOrder < 1
    ensures r.Ok? ==> r.value == FromSignals(b, TopBottomSignals(b, ConfigureTopBottom(c)).value.buy,
                                                TopBottomSignals(b, ConfigureTopBottom(c)).value.sell)
    ensures r.Ok? ==> |r.value.positions| == b.Length()
    ensures r.Ok? ==> forall i :: 0 <= i < b.Length() && r.value.positions[i] ==>
      exists k :: 0 <= k <= i && Recorded(b, DoubleBottom, "low", ConfigureTopBottom(c).troughOrder,
        PairRule(ConfigureTopBottom(c).tolerance, ConfigureTopBottom(c).minBarsBetween, ConfigureTopBottom(c).maxBarsBetween), k)
  {
    var p := ConfigureTopBottom(c);
    var s := TopBottomSignals(b, p);
    if s.Err? then Err(s.error)
    else
      var state := FromSignals(b, s.value.buy, s.value.sell);
      PositionsFollowBuys(b, s.value.buy, s.value.sell);
      Ok(state)
  }

  /** Every bar in position has a buy at or before it. */
  lemma PositionsFollowBuys(b: Bars, buy: seq<bool>, sell: seq<bool>)
    requires Aligned(b) && Positive(b.open) && |buy| == b.Length() && |sell| == b.Length()
    ensures forall i :: 0 <= i < b.Length() && FromSignals(b, buy, sell).positions[i] ==>
      exists k :: 0 <= k <= i && buy[k]
  {
    forall i | 0 <= i < b.Length() && FromSignals(b, buy, sell).positions[i]
      ensures exists k :: 0 <= k <= i && buy[k]
    {
      assert HeldAt(buy, sell, i);
      var k :| 0 <= k <= i && k < |buy| && buy[k] && Quiet(buy, sell, k, i);
    }
  }

  /** Every bar in position lies less than `hold_bars` bars after a
      confirmed double bottom in `low`. */
  predicate HeldNearBottoms(b: Bars, p: BottomOnlyParams, positions: seq<bool>)
    requires WellFormed(b)
  {
    WellFormedColumns(b);
    p.troughOrder >= 1 &&
    forall i :: 0 <= i < |positions| && i < b.Length() && positions[i] ==>
      exists k :: 0 <= k <= i && i - p.holdBars < k
        && Recorded(b, DoubleBottom, "low", p.troughOrder, PairRule(p.tolerance, p.minBarsBetween, p.maxBarsBetween), k)
  }

  /** backtest for DoubleBottomOnlyStrategy. With a positive hold period
      a position is only ever held within `hold_bars` bars of a confirmed
      double bottom. */
  function BacktestBottomOnly(b: Bars, c: Config): (r: Result<PortfolioState>)
    requires WellFormed(b)
    ensures r.Ok? <==> BottomOnlySignals(b, ConfigureBottomOnly(c)).Ok?
    ensures r.Ok? ==> r.value == FromSignals(b, BottomOnlySignals(b, ConfigureBottomOnly(c)).value.buy,
                                              BottomOnlySignals(b, ConfigureBottomOnly(c)).value.sell)
    ensures r.Ok? ==> |r.value.positions| == b.Length()
    ensures r.Ok? && ConfigureBottomOnly(c).holdBars >= 1 ==> HeldNearBottoms(b, ConfigureBottomOnly(c), r.value.positions)
  {
    var p := ConfigureBottomOnly(c);
    var s := BottomOnlySignals(b, p);
    if s.Err? then Err(s.error)
    else
      var state := FromSignals(b, s.value.buy, s.value.sell);
      if p.holdBars >= 1 then
        BottomOnlyHeldWithinHold(b, p, s.value.buy, s.value.sell, state.positions);
        Ok(state)
      else
        Ok(state)
  }

  /** In the long-only strategy a bar in position lies less than
      `hold_bars` bars after a confirmed double bottom: the buys are the
      confirmations, the sells sit `hold_bars` after them, and positions
      forward-fill from the last signal. */
  lemma BottomOnlyHeldWithinHold(b: Bars, p: BottomOnlyParams, buy: seq<bool>, sell: seq<bool>, positions: seq<bool>)
    requires WellFormed(b) && p.troughOrder >= 1 && p.holdBars >= 1
    requires |buy| == b.Length() && |sell| == b.Length() && |positions| == b.Length()
    requires forall k :: 0 <= k < |buy| && buy[k] ==> BuyIsBottom(b, p, k)
    requires forall j :: 0 <= j < |buy| ==> (sell[j] <==> SoldBy(buy, p.holdBars, j))
    requires forall j :: 0 <= j < |buy| ==> (positions[j] <==> HeldAt(buy, sell, j))
    ensures HeldNearBottoms(b, p, positions)
  {
    HeldNearBuys(buy, sell, p.holdBars, positions);
    WellFormedColumns(b);
    var rule := PairRule(p.tolerance, p.minBarsBetween, p.maxBarsBetween);
    forall i | 0 <= i < |positions| && i < b.Length() && positions[i]
      ensures exists k :: 0 <= k <= i && i - p.holdBars < k && Recorded(b, DoubleBottom, "low", p.troughOrder, rule, k)
    {
      var k :| 0 <= k <= i && i - p.holdBars < k && buy[k];
      assert BuyIsBottom(b, p, k);
    }
  }

  /** Bar `k` is a recorded double-bottom confirmation in `low`. */
  predicate BuyIsBottom(b: Bars, p: BottomOnlyParams, k: nat)
    requires WellFormed(b)
  {
    WellFormedColumns(b);
    p.troughOrder >= 1
    && Recorded(b, DoubleBottom, "low", p.troughOrder, PairRule(p.tolerance, p.minBarsBetween, p.maxBarsBetween), k)
  }

  /** Positions forward-filled from buys and hold-period sells: every bar
      in position lies less than `hold` bars after a buy. */
  lemma HeldNearBuys(buy: seq<bool>, sell: seq<bool>, hold: int, positions: seq<bool>)
    requires hold >= 1 && |sell| == |buy| && |positions| == |buy|
    requires forall j :: 0 <= j < |buy| ==> (sell[j] <==> SoldBy(buy, hold, j))
    requires forall j :: 0 <= j < |buy| ==> (positions[j] <==> HeldAt(buy, sell, j))
    ensures forall i :: 0 <= i < |positions| && positions[i] ==> exists k :: 0 <= k <= i && i - hold < k && buy[k]
  {
    forall i | 0 <= i < |positions| && positions[i]
      ensures exists k :: 0 <= k <= i && i - hold < k && buy[k]
    {
      HeldWithinHold(buy, sell, hold, i);
    }
  }

  /** When every sell sits `hold` bars after a buy (clamped to the last
      bar), a held bar lies less than `hold` bars after the buy that
      opened the position: that buy's own sell would otherwise have
      closed it. */
  lemma HeldWithinHold(buy: seq<bool>, sell: seq<bool>, hold: int, i: nat)
    requires hold >= 1 && i < |buy| && |sell| == |buy|
    requires forall j :: 0 <= j < |buy| ==> (sell[j] <==> SoldBy(buy, hold, j))
    requires HeldAt(buy, sell, i)
    ensures exists k :: 0 <= k <= i && i - hold < k && buy[k]
  {
    var k :| 0 <= k <= i && k < |buy| && buy[k] && Quiet(buy, sell, k, i);
    if k + hold <= i {
      EarlyBuySells(buy, hold, k);
    }
  }

  /** A buy whose hold period ends inside the frame sells exactly then. */
  lemma EarlyBuySells(buy: seq<bool>, hold: int, k: nat)
    requires hold >= 0 && k + hold < |buy| && buy[k]
    ensures SoldBy(buy, hold, k + hold)
  {
    assert SellSlot(k, hold, |buy|) == Some(k + hold);
  }

  /** In the long-only strategy with a positive hold period, a position
      never outlives its hold period: a bar in position lies less than
      `hold_bars` bars after the latest buy. */
  lemma PositionEndsAfterHold(buy: seq<bool>, hold: int, i: nat)
    requires hold >= 1 && i < |buy|
    requires SignalsToPositions(buy, HoldSignals(buy, hold).value.sell)[i]
    ensures exists k :: 0 <= k <= i && i - hold < k && buy[k]
  {
    var sell := HoldSignals(buy, hold).value.sell;
    PositionIsLastSeed(buy, sell, i);
    var k :| 0 <= k <= i && k < |buy| && buy[k] && Quiet(buy, sell, k, i);
    if k + hold <= i {
      NonNegativeHoldSells(buy, hold, k + hold);
    }
  }
}
