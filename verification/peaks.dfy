/** Local-extrema detection (backtester/src/patterns/peaks.py).
    `find_peaks`/`find_troughs` delegate to scipy's `argrelextrema`, whose
    default `mode='clip'` clamps out-of-range neighbours to the first or last
    offset; the rolling-window variants compare against a full centred window. */
module Peaks {
  import opened Wrappers
  import opened Series
  import opened Frame

  /** The two comparators `argrelextrema` is called with: `np.greater` for
      peaks, `np.less` for troughs. */
  datatype Comparator = Greater | Less

  predicate Compare(c: Comparator, a: real, b: real)
  {
    match c
    case Greater => a > b
    case Less => a < b
  }

  /** numpy `take(..., mode='clip')`: a position outside [0, n) is clamped
      to the nearest end. */
  function Clip(j: int, n: nat): (r: nat)
    requires n > 0
    ensures r < n
    ensures 0 <= j < n ==> r == j
    ensures j < 0 ==> r == 0
    ensures j >= n ==> r == n - 1
  {
    if j < 0 then 0 else if j >= n then n - 1 else j
  }

  /** One round of argrelextrema: the value at `i` beats both clipped
      neighbours at distance `shift`. */
  predicate BeatsAtShift(v: seq<real>, c: Comparator, i: nat, shift: int)
    requires i < |v|
  {
    Compare(c, v[i], v[Clip(i + shift, |v|)]) && Compare(c, v[i], v[Clip(i - shift, |v|)])
  }

  /** The accumulated `results &= comparator(main, plus/minus)` after the
      rounds `shift = 1 .. shifts`. */
  predicate ClippedBeats(v: seq<real>, c: Comparator, i: nat, shifts: int)
    requires i < |v|
    decreases shifts
  {
    shifts <= 0 || (ClippedBeats(v, c, i, shifts - 1) && BeatsAtShift(v, c, i, shifts))
  }

  /** The window reading of a strict local extremum: not the first or last
      offset, and strictly beyond every existing neighbour within `order`
      (an equal neighbour disqualifies). */
  predicate IsStrictExtremum(v: seq<real>, c: Comparator, i: int, order: int)
  {
    && 0 < i < |v| - 1
    && forall j :: 0 <= j < |v| && j != i && i - order <= j <= i + order ==> Compare(c, v[i], v[j])
  }

  lemma {:induction false} ClippedBeatsEvery(v: seq<real>, c: Comparator, i: nat, shifts: int)
    requires i < |v|
    ensures ClippedBeats(v, c, i, shifts) <==> forall s :: 1 <= s <= shifts ==> BeatsAtShift(v, c, i, s)
    decreases shifts
  {
    if shifts > 0 {
      ClippedBeatsEvery(v, c, i, shifts - 1);
    }
  }

  /** The clipped rounds of argrelextrema flag exactly the window extrema. */
  lemma ClipMatchesWindow(v: seq<real>, c: Comparator, i: nat, order: int)
    requires order >= 1 && i < |v|
    ensures ClippedBeats(v, c, i, order) <==> IsStrictExtremum(v, c, i, order)
  {
    var n := |v|;
    ClippedBeatsEvery(v, c, i, order);
    if ClippedBeats(v, c, i, order) {
      assert BeatsAtShift(v, c, i, 1);
      forall j | 0 <= j < n && j != i && i - order <= j <= i + order
        ensures Compare(c, v[i], v[j])
      {
        if j > i {
          assert BeatsAtShift(v, c, i, j - i);
        } else {
          assert BeatsAtShift(v, c, i, i - j);
        }
      }
    }
    if IsStrictExtremum(v, c, i, order) {
      forall s | 1 <= s <= order
        ensures BeatsAtShift(v, c, i, s)
      {
        assert Clip(i + s, n) != i && Clip(i - s, n) != i;
      }
    }
  }

  /** `argrelextrema(v, comparator, order)` as one flag per offset. */
  function RelativeExtrema(v: seq<real>, c: Comparator, order: int): (r: seq<bool>)
    requires order >= 1
    ensures |r| == |v|
    ensures forall i :: 0 <= i < |v| ==> (r[i] <==> IsStrictExtremum(v, c, i, order))
  {
    var r := seq(|v|, i requires 0 <= i < |v| => ClippedBeats(v, c, i, order));
    assert forall i :: 0 <= i < |v| ==> (r[i] <==> IsStrictExtremum(v, c, i, order)) by {
      forall i | 0 <= i < |v|
        ensures r[i] <==> IsStrictExtremum(v, c, i, order)
      {
        ClipMatchesWindow(v, c, i, order);
      }
    }
    r
  }

  /** Shared body of find_peaks / find_troughs: the column check comes
      first, then argrelextrema's order check. */
  function FindExtrema(b: Bars, column: string, c: Comparator, order: int): (r: Result<seq<bool>>)
    requires Aligned(b)
    ensures r.Ok? <==> HasColumn(column) && order >= 1
  {
    match Column(b, column)
    case None => Err(ColumnNotFound(column))
    case Some(v) => if order < 1 then Err(BadOrder(order)) else Ok(RelativeExtrema(v, c, order))
  }

  /** find_peaks: flags the offsets whose value is strictly above every
      neighbour within `order`, clipped at the ends. */
  function FindPeaks(b: Bars, column: string, order: int): (r: Result<seq<bool>>)
    requires Aligned(b)
    ensures !HasColumn(column) ==> r == Err(ColumnNotFound(column))
    ensures HasColumn(column) && order < 1 ==> r == Err(BadOrder(order))
    ensures r.Ok? ==> |r.value| == b.Length()
    ensures r.Ok? ==> forall i :: 0 <= i < b.Length() ==>
      (r.value[i] <==> IsStrictExtremum(Column(b, column).value, Greater, i, order))
  {
    FindExtrema(b, column, Greater, order)
  }

  /** find_troughs: the mirror of find_peaks with a strict `<`. */
  function FindTroughs(b: Bars, column: string, order: int): (r: Result<seq<bool>>)
    requires Aligned(b)
    ensures !HasColumn(column) ==> r == Err(ColumnNotFound(column))
    ensures HasColumn(column) && order < 1 ==> r == Err(BadOrder(order))
    ensures r.Ok? ==> |r.value| == b.Length()
    ensures r.Ok? ==> forall i :: 0 <= i < b.Length() ==>
      (r.value[i] <==> IsStrictExtremum(Column(b, column).value, Less, i, order))
  {
    FindExtrema(b, column, Less, order)
  }

  /** Two peaks of one column lie more than `order` bars apart. */
  lemma PeaksSeparated(b: Bars, column: string, order: int, i: nat, j: nat)
    requires Aligned(b) && FindPeaks(b, column, order).Ok?
    requires i < j < b.Length()
    requires FindPeaks(b, column, order).value[i] && FindPeaks(b, column, order).value[j]
    ensures j - i > order
  {
  }

  /** Two troughs of one column lie more than `order` bars apart. */
  lemma TroughsSeparated(b: Bars, column: string, order: int, i: nat, j: nat)
    requires Aligned(b) && FindTroughs(b, column, order).Ok?
    requires i < j < b.Length()
    requires FindTroughs(b, column, order).value[i] && FindTroughs(b, column, order).value[j]
    ensures j - i > order
  {
  }

  /** No offset is both a peak and a trough of the same column. */
  lemma PeakIsNotTrough(b: Bars, column: string, order: int, i: nat)
    requires Aligned(b) && FindPeaks(b, column, order).Ok?
    requires i < b.Length()
    ensures !(FindPeaks(b, column, order).value[i] && FindTroughs(b, column, order).value[i])
  {
    var v := Column(b, column).value;
    if FindPeaks(b, column, order).value[i] {
      assert v[i] > v[i + 1];
    }
  }

  /** A strictly increasing column has no peaks. */
  lemma IncreasingHasNoPeaks(b: Bars, column: string, order: int)
    requires Aligned(b) && FindPeaks(b, column, order).Ok?
    requires forall i :: 0 <= i < b.Length() - 1 ==> Column(b, column).value[i] < Column(b, column).value[i + 1]
    ensures forall i :: 0 <= i < b.Length() ==> !FindPeaks(b, column, order).value[i]
  {
    var v := Column(b, column).value;
    forall i | 0 <= i < b.Length()
      ensures !FindPeaks(b, column, order).value[i]
    {
      if 0 < i < b.Length() - 1 {
        assert v[i] < v[i + 1];
      }
    }
  }

  function Negate(v: seq<real>): (r: seq<real>)
    ensures |r| == |v| && forall i :: 0 <= i < |v| ==> r[i] == -v[i]
  {
    seq(|v|, i requires 0 <= i < |v| => -v[i])
  }

  /** Troughs of a series are exactly the peaks of its negation. */
  lemma TroughsMirrorPeaks(v: seq<real>, order: int)
    requires order >= 1
    ensures RelativeExtrema(v, Less, order) == RelativeExtrema(Negate(v), Greater, order)
  {
    var t := RelativeExtrema(v, Less, order);
    var p := RelativeExtrema(Negate(v), Greater, order);
    forall i | 0 <= i < |v|
      ensures t[i] == p[i]
    {
      if 0 < i < |v| - 1 {
        assert IsStrictExtremum(v, Less, i, order) <==> IsStrictExtremum(Negate(v), Greater, i, order);
      }
    }
  }

  /** A V-shaped series (strictly falling to `m`, strictly rising after it)
      has its only trough at `m`. */
  lemma VShapeSingleTrough(v: seq<real>, m: nat, order: int)
    requires order >= 1 && 0 < m < |v| - 1
    requires forall a, c :: 0 <= a < c <= m ==> v[a] > v[c]
    requires forall a, c :: m <= a < c < |v| ==> v[a] < v[c]
    ensures forall i :: 0 <= i < |v| ==> (RelativeExtrema(v, Less, order)[i] <==> i == m)
  {
    var t := RelativeExtrema(v, Less, order);
    forall i | 0 <= i < |v|
      ensures t[i] <==> i == m
    {
      if i < m {
        assert v[i + 1] < v[i];
      } else if i > m {
        assert v[i - 1] < v[i];
      }
    }
  }

  /** The rolling-window test at `i`: inside [w, n-w) and equal to the
      window maximum (ties allowed). */
  predicate IsWindowMax(v: seq<real>, i: int, w: nat)
  {
    && w <= i < |v| - w
    && forall j :: i - w <= j <= i + w ==> v[j] <= v[i]
  }

  predicate IsWindowMin(v: seq<real>, i: int, w: nat)
  {
    && w <= i < |v| - w
    && forall j :: i - w <= j <= i + w ==> v[i] <= v[j]
  }

  /** One iteration of `for i in range(window, n - window)`: the test
      `prices[i] == window_data.max()` (or `.min()`). */
  predicate RollingTest(v: seq<real>, i: nat, w: nat, c: Comparator)
    requires i < |v|
    ensures c == Greater ==> (RollingTest(v, i, w, c) <==> IsWindowMax(v, i, w))
    ensures c == Less ==> (RollingTest(v, i, w, c) <==> IsWindowMin(v, i, w))
  {
    && w <= i < |v| - w
    && var window := v[i - w..i + w + 1];
       assert forall j :: i - w <= j <= i + w ==> v[j] == window[j - (i - w)];
       v[i] == (if c == Greater then MaxOf(window) else MinOf(window))
  }

  function RollingFlags(v: seq<real>, w: nat, c: Comparator): (r: seq<bool>)
    ensures |r| == |v|
    ensures forall i :: 0 <= i < |v| ==> r[i] == RollingTest(v, i, w, c)
  {
    seq(|v|, i requires 0 <= i < |v| => RollingTest(v, i, w, c))
  }

  /** Shared body of the rolling-window detectors. A missing column fails on
      `data[column]`; a negative window drives the loop to an `iloc` position
      outside the frame. */
  function FindRolling(b: Bars, column: string, window: int, c: Comparator): (r: Result<seq<bool>>)
    requires Aligned(b)
    ensures r.Ok? <==> HasColumn(column) && window >= 0
  {
    match Column(b, column)
    case None => Err(MissingKey(column))
    case Some(v) =>
      if window < 0 then Err(IndexOutOfRange(if window < -|v| then window else |v|))
      else Ok(RollingFlags(v, window, c))
  }

  /** find_peaks_simple: non-strict window maxima restricted to [w, n-w). */
  function FindPeaksSimple(b: Bars, column: string, window: int): (r: Result<seq<bool>>)
    requires Aligned(b)
    ensures !HasColumn(column) ==> r == Err(MissingKey(column))
    ensures HasColumn(column) && window < 0 ==>
      r == Err(IndexOutOfRange(if window < -(b.Length() as int) then window else b.Length()))
    ensures r.Ok? ==> |r.value| == b.Length()
    ensures r.Ok? ==> window >= 0 && forall i :: 0 <= i < b.Length() ==>
      (r.value[i] <==> IsWindowMax(Column(b, column).value, i, window))
  {
    FindRolling(b, column, window, Greater)
  }

  /** find_troughs_simple: non-strict window minima restricted to [w, n-w). */
  function FindTroughsSimple(b: Bars, column: string, window: int): (r: Result<seq<bool>>)
    requires Aligned(b)
    ensures !HasColumn(column) ==> r == Err(MissingKey(column))
    ensures HasColumn(column) && window < 0 ==>
      r == Err(IndexOutOfRange(if window < -(b.Length() as int) then window else b.Length()))
    ensures r.Ok? ==> |r.value| == b.Length()
    ensures r.Ok? ==> window >= 0 && forall i :: 0 <= i < b.Length() ==>
      (r.value[i] <==> IsWindowMin(Column(b, column).value, i, window))
  {
    FindRolling(b, column, window, Less)
  }

  /** Every strict peak inside [order, n-order) is also a rolling-window
      peak with `window = order`. */
  lemma StrictPeakIsSimplePeak(b: Bars, column: string, order: int, i: nat)
    requires Aligned(b) && FindPeaks(b, column, order).Ok?
    requires order <= i < b.Length() - order
    requires FindPeaks(b, column, order).value[i]
    ensures FindPeaksSimple(b, column, order).Ok? && FindPeaksSimple(b, column, order).value[i]
  {
    var v := Column(b, column).value;
    assert forall j :: i - order <= j <= i + order ==> v[j] <= v[i] by {
      forall j | i - order <= j <= i + order
        ensures v[j] <= v[i]
      {
        if j != i {
          assert Compare(Greater, v[i], v[j]);
        }
      }
    }
  }
}
