/** Double top / double bottom matching (backtester/src/patterns/double_patterns.py).
    Every ordered pair of extrema is tested; the first confirmed second
    extremum ends the search for its first extremum, and the result flags
    the confirmation (breakout) offset rather than either extremum. */
module DoublePatterns {
  import opened Wrappers
  import opened Series
  import opened Frame
  import Peaks

  /** Bars after the second extremum searched for the breakout. */
  const LookaheadBars: nat := 10

  datatype Shape = DoubleTop | DoubleBottom

  /** The pair filters shared by both shapes. */
  datatype PairRule = PairRule(tolerance: real, minBarsBetween: int, maxBarsBetween: int)

  /** Peaks for a top, troughs for a bottom. */
  function Extrema(b: Bars, s: Shape, column: string, order: int): (r: Result<seq<bool>>)
    requires Aligned(b)
    ensures r.Ok? <==> HasColumn(column) && order >= 1
    ensures r.Ok? ==> |r.value| == b.Length()
  {
    match s
    case DoubleTop => Peaks.FindPeaks(b, column, order)
    case DoubleBottom => Peaks.FindTroughs(b, column, order)
  }

  /** A close beyond the neckline: below it for a top, above it for a bottom. */
  predicate Breaks(s: Shape, close: real, level: real)
  {
    match s
    case DoubleTop => close < level
    case DoubleBottom => close > level
  }

  /** The neckline between the extrema: the lowest `low` over [idx1, idx2)
      for a top, the highest `high` for a bottom. The second extremum's own
      bar is not part of the range. */
  function Neckline(b: Bars, s: Shape, idx1: nat, idx2: nat): (r: real)
    requires Aligned(b) && idx1 < idx2 <= b.Length()
    ensures s == DoubleTop ==>
      (exists k :: idx1 <= k < idx2 && b.low[k] == r) && forall k :: idx1 <= k < idx2 ==> r <= b.low[k]
    ensures s == DoubleBottom ==>
      (exists k :: idx1 <= k < idx2 && b.high[k] == r) && forall k :: idx1 <= k < idx2 ==> b.high[k] <= r
  {
    match s
    case DoubleTop => MinIn(b.low, idx1, idx2)
    case DoubleBottom => MaxIn(b.high, idx1, idx2)
  }

  /** `abs(price2 - price1) / price1` does not exceed the tolerance. */
  predicate Similar(p1: real, p2: real, tolerance: real)
    requires p1 > 0.0
  {
    Abs(p2 - p1) / p1 <= tolerance
  }

  /** `min(10, len(data) - idx2 - 1)`: never reaches the last bar. */
  function Lookforward(n: nat, idx2: nat): int
  {
    Min(LookaheadBars, n - idx2 - 1)
  }

  /** The pair passes the distance and the price-similarity filters. */
  predicate PairQualifies(v: seq<real>, idx1: nat, idx2: nat, rule: PairRule)
    requires idx1 < idx2 < |v| && Positive(v)
  {
    && rule.minBarsBetween <= idx2 - idx1 <= rule.maxBarsBetween
    && Similar(v[idx1], v[idx2], rule.tolerance)
  }

  /** First offset in [lo, hi) whose close breaks the level. */
  function FirstBreak(close: seq<real>, s: Shape, level: real, lo: nat, hi: nat): (r: Option<nat>)
    requires lo <= hi <= |close|
    decreases hi - lo
    ensures r.Some? ==> lo <= r.value < hi && Breaks(s, close[r.value], level)
    ensures r.Some? ==> forall o :: lo <= o < r.value ==> !Breaks(s, close[o], level)
    ensures r.None? ==> forall o :: lo <= o < hi ==> !Breaks(s, close[o], level)
  {
    if lo == hi then None
    else if Breaks(s, close[lo], level) then Some(lo)
    else FirstBreak(close, s, level, lo + 1, hi)
  }

  /** One iteration of the inner loop: None when the pair is skipped or
      not confirmed, otherwise the confirmation offset, which is never
      before the second extremum nor on the last bar. */
  function TestPair(b: Bars, s: Shape, v: seq<real>, idx1: nat, idx2: nat, rule: PairRule): (r: Option<nat>)
    requires Aligned(b) && |v| == b.Length() && Positive(v) && idx1 < idx2 < |v|
    ensures r.Some? ==> idx2 <= r.value <= |v| - 2
  {
    if idx2 - idx1 < rule.minBarsBetween || idx2 - idx1 > rule.maxBarsBetween then None
    else if Abs(v[idx2] - v[idx1]) / v[idx1] > rule.tolerance then None
    else
      var level := Neckline(b, s, idx1, idx2);
      var look := Lookforward(|v|, idx2);
      if look > 0 then FirstBreak(b.close, s, level, idx2, idx2 + look) else None
  }

  /** The close at `o` is the first in the lookahead window after `idx2`
      to break the neckline between `idx1` and `idx2`. */
  predicate FirstBreakout(b: Bars, s: Shape, idx1: nat, idx2: nat, o: nat)
    requires Aligned(b) && idx1 < idx2 < b.Length()
  {
    && idx2 <= o < idx2 + Lookforward(b.Length(), idx2)
    && Breaks(s, b.close[o], Neckline(b, s, idx1, idx2))
    && forall o' :: idx2 <= o' < o ==> !Breaks(s, b.close[o'], Neckline(b, s, idx1, idx2))
  }

  /** A pair confirms exactly when it passes both filters and some close in
      the window breaks the neckline; the offset is the first such close. */
  lemma TestPairMeaning(b: Bars, s: Shape, v: seq<real>, idx1: nat, idx2: nat, rule: PairRule)
    requires Aligned(b) && |v| == b.Length() && Positive(v) && idx1 < idx2 < |v|
    ensures TestPair(b, s, v, idx1, idx2, rule).Some? <==>
      && PairQualifies(v, idx1, idx2, rule)
      && exists o :: idx2 <= o < idx2 + Lookforward(|v|, idx2) && Breaks(s, b.close[o], Neckline(b, s, idx1, idx2))
    ensures TestPair(b, s, v, idx1, idx2, rule).Some? ==>
      FirstBreakout(b, s, idx1, idx2, TestPair(b, s, v, idx1, idx2, rule).value)
  {
  }

  /** Extremum offsets as the loops see them: ascending, inside the frame. */
  predicate ValidOffsets(P: seq<nat>, n: nat)
  {
    Increasing(P) && forall k :: 0 <= k < |P| ==> P[k] < n
  }

  /** The pair of the `i`-th and `k`-th extrema, as the inner loop tests it. */
  function Candidate(b: Bars, s: Shape, v: seq<real>, P: seq<nat>, i: nat, k: nat, rule: PairRule): (r: Option<nat>)
    requires Aligned(b) && |v| == b.Length() && Positive(v) && ValidOffsets(P, |v|)
    requires i < k < |P|
    ensures r.Some? ==> P[i] < r.value <= |v| - 2
  {
    TestPair(b, s, v, P[i], P[k], rule)
  }

  /** The outcomes of the inner loop's pairs for the `i`-th extremum, one
      per candidate second extremum (undefined up to `i` itself). */
  function Candidates(b: Bars, s: Shape, v: seq<real>, P: seq<nat>, i: nat, rule: PairRule): (c: seq<Option<nat>>)
    requires Aligned(b) && |v| == b.Length() && Positive(v) && ValidOffsets(P, |v|)
    requires i < |P|
    ensures |c| == |P|
    ensures forall k :: 0 <= k < |P| && c[k].Some? ==> i < k && P[i] < c[k].value <= |v| - 2
    ensures forall k :: i < k < |P| ==> c[k] == Candidate(b, s, v, P, i, k, rule)
  {
    seq(|P|, k requires 0 <= k < |P| => if i < k then Candidate(b, s, v, P, i, k, rule) else None)
  }

  /** The inner loop for the `i`-th extremum: the first second extremum
      that confirms, whose breakout lies after the first extremum and
      before the last bar. */
  function Confirmation(b: Bars, s: Shape, v: seq<real>, P: seq<nat>, i: nat, rule: PairRule): (r: Option<nat>)
    requires Aligned(b) && |v| == b.Length() && Positive(v) && ValidOffsets(P, |v|)
    requires i < |P|
    ensures r.Some? ==> P[i] < r.value <= |v| - 2
  {
    FirstSome(Candidates(b, s, v, P, i, rule), i + 1)
  }

  /** The inner loop ends at the first confirmed candidate only: every
      unconfirmed pair before it is passed over, and with no confirmed
      candidate nothing is recorded. */
  lemma ConfirmationMeaning(b: Bars, s: Shape, v: seq<real>, P: seq<nat>, i: nat, rule: PairRule)
    requires Aligned(b) && |v| == b.Length() && Positive(v) && ValidOffsets(P, |v|)
    requires i < |P|
    ensures Confirmation(b, s, v, P, i, rule).Some? ==>
      exists k :: i < k < |P| && Candidate(b, s, v, P, i, k, rule) == Confirmation(b, s, v, P, i, rule)
        && forall l :: i < l < k ==> Candidate(b, s, v, P, i, l, rule).None?
    ensures Confirmation(b, s, v, P, i, rule).None? ==>
      forall k :: i < k < |P| ==> Candidate(b, s, v, P, i, k, rule).None?
  {
    var c := Candidates(b, s, v, P, i, rule);
    var r := Confirmation(b, s, v, P, i, rule);
    if r.Some? {
      var m :| i + 1 <= m < |c| && c[m] == r && forall l :: i + 1 <= l < m ==> c[l].None?;
      assert Candidate(b, s, v, P, i, m, rule) == r;
    }
  }

  /** The confirmation of every first extremum, in the outer loop's order. */
  function Confirmations(b: Bars, s: Shape, v: seq<real>, P: seq<nat>, rule: PairRule): (C: seq<Option<nat>>)
    requires Aligned(b) && |v| == b.Length() && Positive(v) && ValidOffsets(P, |v|)
    ensures |C| == |P|
    ensures forall k :: 0 <= k < |P| ==> C[k] == Confirmation(b, s, v, P, k, rule)
  {
    seq(|P|, k requires 0 <= k < |P| => Confirmation(b, s, v, P, k, rule))
  }

  /** Some first extremum from the `i`-th on records `o`; the last
      extremum is never a first one, as the outer loop stops before it. */
  predicate RecordedFrom(C: seq<Option<nat>>, i: nat, o: nat)
  {
    exists k :: i <= k < |C| - 1 && C[k] == Some(o)
  }

  /** The outer loop from the `i`-th extremum on, writing each recorded
      confirmation into `flags`. */
  function MarkAll(C: seq<Option<nat>>, i: nat, flags: seq<bool>): (r: seq<bool>)
    requires forall k :: 0 <= k < |C| && C[k].Some? ==> C[k].value < |flags|
    decreases |C| - i
    ensures |r| == |flags|
    ensures Count(r) <= Count(flags) + (if i + 1 < |C| then |C| - 1 - i else 0)
  {
    if i + 1 >= |C| then flags
    else
      var next := (match C[i]
        case Some(o) => CountRaise(flags, o); flags[o := true]
        case None => flags);
      MarkAll(C, i + 1, next)
  }

  /** After the outer loop from the `i`-th extremum on, a bar is flagged
      exactly when it was flagged before or a remaining extremum records it. */
  lemma {:induction false} MarkAllFlags(C: seq<Option<nat>>, i: nat, flags: seq<bool>, o: nat)
    requires forall k :: 0 <= k < |C| && C[k].Some? ==> C[k].value < |flags|
    requires o < |flags|
    decreases |C| - i
    ensures MarkAll(C, i, flags)[o] <==> flags[o] || RecordedFrom(C, i, o)
  {
    if i + 1 < |C| {
      var next := if C[i].Some? then flags[C[i].value := true] else flags;
      assert MarkAll(C, i, flags) == MarkAll(C, i + 1, next);
      MarkAllFlags(C, i + 1, next, o);
      if RecordedFrom(C, i, o) && C[i] != Some(o) {
        var k :| i <= k < |C| - 1 && C[k] == Some(o);
        assert RecordedFrom(C, i + 1, o);
      }
      if RecordedFrom(C, i + 1, o) {
        var k :| i + 1 <= k < |C| - 1 && C[k] == Some(o);
        assert RecordedFrom(C, i, o);
      }
      if C[i] == Some(o) {
        assert RecordedFrom(C, i, o);
      }
    }
  }

  /** The offsets of the extrema a detection pairs. */
  function ExtremaOffsets(b: Bars, s: Shape, column: string, order: int): (P: seq<nat>)
    requires Aligned(b) && Extrema(b, s, column, order).Ok?
    ensures ValidOffsets(P, b.Length())
  {
    TrueOffsets(Extrema(b, s, column, order).value)
  }

  /** Offset `o` is the confirmation recorded for one of the extrema other
      than the last. */
  predicate Recorded(b: Bars, s: Shape, column: string, order: int, rule: PairRule, o: nat)
    requires Aligned(b) && PositiveColumn(b, column) && Extrema(b, s, column, order).Ok?
  {
    var P := ExtremaOffsets(b, s, column, order);
    exists k :: 0 <= k < |P| - 1 && Confirmation(b, s, Column(b, column).value, P, k, rule) == Some(o)
  }

  /** The flags MarkAll leaves on an empty frame are the recorded offsets. */
  lemma MarkAllRecords(b: Bars, s: Shape, column: string, order: int, rule: PairRule, flags: seq<bool>)
    requires Aligned(b) && PositiveColumn(b, column) && Extrema(b, s, column, order).Ok?
    requires |flags| == b.Length() && forall o :: 0 <= o < |flags| ==> !flags[o]
    ensures var C := Confirmations(b, s, Column(b, column).value, ExtremaOffsets(b, s, column, order), rule);
      forall o :: 0 <= o < b.Length() ==> (MarkAll(C, 0, flags)[o] <==> Recorded(b, s, column, order, rule, o))
  {
    var v := Column(b, column).value;
    var P := ExtremaOffsets(b, s, column, order);
    var C := Confirmations(b, s, v, P, rule);
    forall o | 0 <= o < b.Length()
      ensures MarkAll(C, 0, flags)[o] <==> Recorded(b, s, column, order, rule, o)
    {
      MarkAllFlags(C, 0, flags, o);
      if RecordedFrom(C, 0, o) {
        var k :| 0 <= k < |C| - 1 && C[k] == Some(o);
        assert Confirmation(b, s, v, P, k, rule) == Some(o);
      }
      if Recorded(b, s, column, order, rule, o) {
        var k :| 0 <= k < |P| - 1 && Confirmation(b, s, v, P, k, rule) == Some(o);
        assert C[k] == Some(o);
      }
    }
  }

  /** Shared body of detect_double_top / detect_double_bottom. */
  function Detect(b: Bars, s: Shape, column: string, order: int, rule: PairRule): (r: Result<seq<bool>>)
    requires Aligned(b) && PositiveColumn(b, column)
    ensures r.Err? <==> Extrema(b, s, column, order).Err?
    ensures r.Err? ==> r == Extrema(b, s, column, order)
    ensures r.Ok? ==> |r.value| == b.Length()
    ensures r.Ok? ==> forall o :: 0 <= o < b.Length() ==> (r.value[o] <==> Recorded(b, s, column, order, rule, o))
    ensures r.Ok? ==> Count(r.value) < |ExtremaOffsets(b, s, column, order)| || Count(r.value) == 0
  {
    match Extrema(b, s, column, order)
    case Err(e) => Err(e)
    case Ok(ext) =>
      var none := seq(b.Length(), _ => false);
      CountZero(none);
      var P := ExtremaOffsets(b, s, column, order);
      var C := Confirmations(b, s, Column(b, column).value, P, rule);
      MarkAllRecords(b, s, column, order, rule, none);
      if |P| < 2 then Ok(none)
      else Ok(MarkAll(C, 0, none))
  }

  /** detect_double_top: confirmation offsets of two similar peaks of
      `peakColumn` followed by a close below the lowest low between them. */
  function DetectDoubleTop(b: Bars, peakColumn: string, peakOrder: int, tolerance: real,
                           minBarsBetween: int, maxBarsBetween: int): (r: Result<seq<bool>>)
    requires Aligned(b) && PositiveColumn(b, peakColumn)
    ensures r.Err? <==> !HasColumn(peakColumn) || peakOrder < 1
    ensures r.Err? ==> r == Peaks.FindPeaks(b, peakColumn, peakOrder)
    ensures r.Ok? ==> |r.value| == b.Length()
    ensures r.Ok? ==> Count(r.value) == 0 || Count(r.value) < Count(Peaks.FindPeaks(b, peakColumn, peakOrder).value)
    ensures r.Ok? ==> forall o :: 0 <= o < b.Length() ==>
      (r.value[o] <==> Recorded(b, DoubleTop, peakColumn, peakOrder, PairRule(tolerance, minBarsBetween, maxBarsBetween), o))
  {
    Detect(b, DoubleTop, peakColumn, peakOrder, PairRule(tolerance, minBarsBetween, maxBarsBetween))
  }

  /** detect_double_bottom: the mirror, pairing troughs of `troughColumn`
      and confirming on a close above the highest high between them. */
  function DetectDoubleBottom(b: Bars, troughColumn: string, troughOrder: int, tolerance: real,
                              minBarsBetween: int, maxBarsBetween: int): (r: Result<seq<bool>>)
    requires Aligned(b) && PositiveColumn(b, troughColumn)
    ensures r.Err? <==> !HasColumn(troughColumn) || troughOrder < 1
    ensures r.Err? ==> r == Peaks.FindTroughs(b, troughColumn, troughOrder)
    ensures r.Ok? ==> |r.value| == b.Length()
    ensures r.Ok? ==> Count(r.value) == 0 || Count(r.value) < Count(Peaks.FindTroughs(b, troughColumn, troughOrder).value)
    ensures r.Ok? ==> forall o :: 0 <= o < b.Length() ==>
      (r.value[o] <==> Recorded(b, DoubleBottom, troughColumn, troughOrder, PairRule(tolerance, minBarsBetween, maxBarsBetween), o))
  {
    Detect(b, DoubleBottom, troughColumn, troughOrder, PairRule(tolerance, minBarsBetween, maxBarsBetween))
  }

  /** Every flagged offset is the first breakout after a qualifying pair
      of extrema: both are extrema of the column, their distance and
      relative price difference pass the filters, and the close at the
      flag is the first in the window [idx2, idx2 + lookforward) to break
      the neckline, so the flag lies between idx2 and the second-to-last bar. */
  lemma FlagIsConfirmedPattern(b: Bars, s: Shape, column: string, order: int, rule: PairRule, o: nat)
    requires Aligned(b) && PositiveColumn(b, column)
    requires Detect(b, s, column, order, rule).Ok?
    requires o < b.Length() && Detect(b, s, column, order, rule).value[o]
    ensures var ext := Extrema(b, s, column, order).value;
      exists idx1: nat, idx2: nat :: idx1 < idx2 < b.Length() && ext[idx1] && ext[idx2]
        && PairQualifies(Column(b, column).value, idx1, idx2, rule)
        && FirstBreakout(b, s, idx1, idx2, o)
        && o <= b.Length() - 2
  {
    var v := Column(b, column).value;
    var P := ExtremaOffsets(b, s, column, order);
    var k :| 0 <= k < |P| - 1 && Confirmation(b, s, v, P, k, rule) == Some(o);
    var m := ConfirmedPartner(b, s, v, P, k, rule);
    PairWitness(b, s, column, order, rule, P[k], P[m], o);
  }

  /** The partner extremum whose pair the inner loop confirms. */
  lemma ConfirmedPartner(b: Bars, s: Shape, v: seq<real>, P: seq<nat>, i: nat, rule: PairRule) returns (m: nat)
    requires Aligned(b) && |v| == b.Length() && Positive(v) && ValidOffsets(P, |v|)
    requires i < |P| && Confirmation(b, s, v, P, i, rule).Some?
    ensures i < m < |P| && P[i] < P[m] < |v|
    ensures TestPair(b, s, v, P[i], P[m], rule) == Confirmation(b, s, v, P, i, rule)
  {
    ConfirmationMeaning(b, s, v, P, i, rule);
    m :| i < m < |P| && Candidate(b, s, v, P, i, m, rule) == Confirmation(b, s, v, P, i, rule);
  }

  /** A pair of extrema whose test yields `o` witnesses the flag at `o`. */
  lemma PairWitness(b: Bars, s: Shape, column: string, order: int, rule: PairRule, idx1: nat, idx2: nat, o: nat)
    requires Aligned(b) && PositiveColumn(b, column) && Extrema(b, s, column, order).Ok?
    requires idx1 < idx2 < b.Length()
    requires Extrema(b, s, column, order).value[idx1] && Extrema(b, s, column, order).value[idx2]
    requires TestPair(b, s, Column(b, column).value, idx1, idx2, rule) == Some(o)
    ensures var ext := Extrema(b, s, column, order).value;
      exists idx1: nat, idx2: nat :: idx1 < idx2 < b.Length() && ext[idx1] && ext[idx2]
        && PairQualifies(Column(b, column).value, idx1, idx2, rule)
        && FirstBreakout(b, s, idx1, idx2, o)
        && o <= b.Length() - 2
  {
    TestPairMeaning(b, s, Column(b, column).value, idx1, idx2, rule);
  }

  /** A double-top flag: two similar peaks, and a close below every low
      from the first peak up to (not including) the second. */
  lemma DoubleTopFlagIsBreakdown(b: Bars, peakColumn: string, peakOrder: int, tolerance: real,
                                 minBarsBetween: int, maxBarsBetween: int, o: nat)
    requires Aligned(b) && PositiveColumn(b, peakColumn)
    requires DetectDoubleTop(b, peakColumn, peakOrder, tolerance, minBarsBetween, maxBarsBetween).Ok?
    requires o < b.Length() && DetectDoubleTop(b, peakColumn, peakOrder, tolerance, minBarsBetween, maxBarsBetween).value[o]
    ensures var peaks := Peaks.FindPeaks(b, peakColumn, peakOrder).value;
      exists idx1: nat, idx2: nat :: idx1 < idx2 < b.Length() && peaks[idx1] && peaks[idx2]
        && minBarsBetween <= idx2 - idx1 <= maxBarsBetween
        && Similar(Column(b, peakColumn).value[idx1], Column(b, peakColumn).value[idx2], tolerance)
        && idx2 <= o < idx2 + LookaheadBars && o <= b.Length() - 2
        && forall k :: idx1 <= k < idx2 ==> b.close[o] < b.low[k]
  {
    var rule := PairRule(tolerance, minBarsBetween, maxBarsBetween);
    FlagIsConfirmedPattern(b, DoubleTop, peakColumn, peakOrder, rule, o);
    var peaks := Peaks.FindPeaks(b, peakColumn, peakOrder).value;
    var idx1: nat, idx2: nat :| idx1 < idx2 < b.Length() && peaks[idx1] && peaks[idx2]
      && PairQualifies(Column(b, peakColumn).value, idx1, idx2, rule)
      && FirstBreakout(b, DoubleTop, idx1, idx2, o) && o <= b.Length() - 2;
    var level := Neckline(b, DoubleTop, idx1, idx2);
    assert forall k :: idx1 <= k < idx2 ==> level <= b.low[k];
    assert idx2 <= o < idx2 + LookaheadBars;
    assert forall k :: idx1 <= k < idx2 ==> b.close[o] < b.low[k];
    assert minBarsBetween <= idx2 - idx1 <= maxBarsBetween;
  }

  /** A double-bottom flag: two similar troughs, and a close above every
      high from the first trough up to (not including) the second. */
  lemma DoubleBottomFlagIsBreakout(b: Bars, troughColumn: string, troughOrder: int, tolerance: real,
                                   minBarsBetween: int, maxBarsBetween: int, o: nat)
    requires Aligned(b) && PositiveColumn(b, troughColumn)
    requires DetectDoubleBottom(b, troughColumn, troughOrder, tolerance, minBarsBetween, maxBarsBetween).Ok?
    requires o < b.Length() && DetectDoubleBottom(b, troughColumn, troughOrder, tolerance, minBarsBetween, maxBarsBetween).value[o]
    ensures var troughs := Peaks.FindTroughs(b, troughColumn, troughOrder).value;
      exists idx1: nat, idx2: nat :: idx1 < idx2 < b.Length() && troughs[idx1] && troughs[idx2]
        && minBarsBetween <= idx2 - idx1 <= maxBarsBetween
        && Similar(Column(b, troughColumn).value[idx1], Column(b, troughColumn).value[idx2], tolerance)
        && idx2 <= o < idx2 + LookaheadBars && o <= b.Length() - 2
        && forall k :: idx1 <= k < idx2 ==> b.close[o] > b.high[k]
  {
    var rule := PairRule(tolerance, minBarsBetween, maxBarsBetween);
    FlagIsConfirmedPattern(b, DoubleBottom, troughColumn, troughOrder, rule, o);
    var troughs := Peaks.FindTroughs(b, troughColumn, troughOrder).value;
    var idx1: nat, idx2: nat :| idx1 < idx2 < b.Length() && troughs[idx1] && troughs[idx2]
      && PairQualifies(Column(b, troughColumn).value, idx1, idx2, rule)
      && FirstBreakout(b, DoubleBottom, idx1, idx2, o) && o <= b.Length() - 2;
    var level := Neckline(b, DoubleBottom, idx1, idx2);
    assert forall k :: idx1 <= k < idx2 ==> b.high[k] <= level;
    assert idx2 <= o < idx2 + LookaheadBars;
    assert forall k :: idx1 <= k < idx2 ==> b.close[o] > b.high[k];
    assert minBarsBetween <= idx2 - idx1 <= maxBarsBetween;
  }

  /** With fewer than two extrema nothing is flagged. */
  lemma {:induction false} FewExtremaNoFlags(b: Bars, s: Shape, column: string, order: int, rule: PairRule)
    requires Aligned(b) && PositiveColumn(b, column)
    requires Detect(b, s, column, order, rule).Ok?
    requires Count(Extrema(b, s, column, order).value) < 2
    ensures forall o :: 0 <= o < b.Length() ==> !Detect(b, s, column, order, rule).value[o]
  {
    var r := Detect(b, s, column, order, rule).value;
    assert Count(r) == 0;
    CountZero(r);
  }

  /** detect_head_and_shoulders is a placeholder: nothing is ever flagged. */
  function DetectHeadAndShoulders(b: Bars, peakOrder: int, tolerance: real): (r: seq<bool>)
    ensures |r| == |b.time|
    ensures forall o :: 0 <= o < |r| ==> !r[o]
  {
    seq(|b.time|, _ => false)
  }
}
