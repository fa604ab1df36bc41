/** The OHLCV price frame every stage reads: one row per bar, indexed by a
    strictly increasing timestamp, addressed positionally (0-based offsets). */
module Frame {
  import opened Wrappers

  /** Column-wise view of a price DataFrame: the index plus the five named
      columns the backtester reads. */
  datatype Bars = Bars(
    time: seq<int>,
    open: seq<real>,
    high: seq<real>,
    low: seq<real>,
    close: seq<real>,
    volume: seq<nat>)
  {
    function Length(): nat { |time| }
  }

  /** A DataFrame's columns all have the index's length. */
  predicate Aligned(b: Bars)
  {
    && |b.open| == |b.time|
    && |b.high| == |b.time|
    && |b.low| == |b.time|
    && |b.close| == |b.time|
    && |b.volume| == |b.time|
  }

  predicate Positive(s: seq<real>)
  {
    forall i :: 0 <= i < |s| ==> s[i] > 0.0
  }

  /** A bar series fit for the pattern and return arithmetic: aligned,
      unique increasing timestamps, and positive prices. */
  predicate WellFormed(b: Bars)
  {
    && Aligned(b)
    && (forall i, j :: 0 <= i < j < |b.time| ==> b.time[i] < b.time[j])
    && Positive(b.open) && Positive(b.high) && Positive(b.low) && Positive(b.close)
  }

  predicate HasColumn(name: string)
  {
    name == "open" || name == "high" || name == "low" || name == "close" || name == "volume"
  }

  /** `data[name].values`, or None when the frame has no such column. */
  function Column(b: Bars, name: string): (r: Option<seq<real>>)
    requires Aligned(b)
    ensures r.Some? <==> HasColumn(name)
    ensures r.Some? ==> |r.value| == b.Length()
    ensures name == "high" ==> r == Some(b.high)
    ensures name == "low" ==> r == Some(b.low)
  {
    if name == "open" then Some(b.open)
    else if name == "high" then Some(b.high)
    else if name == "low" then Some(b.low)
    else if name == "close" then Some(b.close)
    else if name == "volume" then Some(seq(|b.volume|, i requires 0 <= i < |b.volume| => b.volume[i] as real))
    else None
  }

  /** The named column, if the frame has it, holds only positive values, as
      the relative price-difference test divides by it. */
  predicate PositiveColumn(b: Bars, name: string)
    requires Aligned(b)
  {
    Column(b, name).Some? ==> Positive(Column(b, name).value)
  }
}
