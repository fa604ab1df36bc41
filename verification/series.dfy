/** Small facts about positional sequences: counting flags, listing the
    offsets of true flags, extreme values and signed sums. */
module Series {
  import opened Wrappers

  function Min(a: int, b: int): int { if a <= b then a else b }

  function Abs(x: real): (r: real)
    ensures r >= 0.0 && (r == x || r == -x)
  {
    if x < 0.0 then -x else x
  }

  /** Number of true flags. */
  function Count(s: seq<bool>): nat
  {
    if |s| == 0 then 0 else (if s[0] then 1 else 0) + Count(s[1..])
  }

  /** The flags that are all false are exactly the ones counting zero. */
  lemma {:induction false} CountZero(s: seq<bool>)
    ensures Count(s) == 0 <==> forall i :: 0 <= i < |s| ==> !s[i]
  {
    if |s| > 0 {
      CountZero(s[1..]);
      assert forall i :: 1 <= i < |s| ==> s[i] == s[1..][i - 1];
    }
  }

  /** Raising one flag raises the count by at most one. */
  lemma {:induction false} CountRaise(s: seq<bool>, o: nat)
    requires o < |s|
    ensures Count(s[o := true]) <= Count(s) + 1
    ensures s[o] ==> Count(s[o := true]) == Count(s)
  {
    if o == 0 {
      assert s[o := true][1..] == s[1..];
    } else {
      assert s[o := true][1..] == s[1..][o - 1 := true];
      CountRaise(s[1..], o - 1);
    }
  }

  /** Offsets from `from` on whose flag is true, in ascending order. */
  function TrueOffsetsFrom(s: seq<bool>, from: nat): (r: seq<nat>)
    requires from <= |s|
    ensures forall k :: 0 <= k < |r| ==> from <= r[k] < |s| && s[r[k]]
    ensures forall k, l :: 0 <= k < l < |r| ==> r[k] < r[l]
    ensures forall i :: from <= i < |s| && s[i] ==> i in r
    ensures |r| == Count(s[from..])
    decreases |s| - from
  {
    if from == |s| then []
    else
      assert s[from..][1..] == s[from + 1..];
      (if s[from] then [from] else []) + TrueOffsetsFrom(s, from + 1)
  }

  /** `flags[flags].index`: the offsets of the true flags, ascending. */
  function TrueOffsets(s: seq<bool>): (r: seq<nat>)
    ensures forall k :: 0 <= k < |r| ==> r[k] < |s| && s[r[k]]
    ensures Increasing(r)
    ensures forall i :: 0 <= i < |s| && s[i] ==> i in r
    ensures |r| == Count(s)
  {
    assert s[0..] == s;
    TrueOffsetsFrom(s, 0)
  }

  predicate Increasing(r: seq<nat>)
  {
    forall k, l :: 0 <= k < l < |r| ==> r[k] < r[l]
  }

  /** Largest element (pandas `Series.max` on a non-empty slice). */
  function MaxOf(s: seq<real>): (r: real)
    requires |s| > 0
    ensures exists k :: 0 <= k < |s| && s[k] == r
    ensures forall k :: 0 <= k < |s| ==> s[k] <= r
  {
    if |s| == 1 then s[0]
    else
      var m := MaxOf(s[..|s| - 1]);
      assert forall k :: 0 <= k < |s| - 1 ==> s[..|s| - 1][k] == s[k];
      if s[|s| - 1] > m then s[|s| - 1] else m
  }

  /** Smallest element (pandas `Series.min` on a non-empty slice). */
  function MinOf(s: seq<real>): (r: real)
    requires |s| > 0
    ensures exists k :: 0 <= k < |s| && s[k] == r
    ensures forall k :: 0 <= k < |s| ==> r <= s[k]
  {
    if |s| == 1 then s[0]
    else
      var m := MinOf(s[..|s| - 1]);
      assert forall k :: 0 <= k < |s| - 1 ==> s[..|s| - 1][k] == s[k];
      if s[|s| - 1] < m then s[|s| - 1] else m
  }

  /** Smallest of `s[lo..hi]`, located by its offset in `s`. */
  function MinIn(s: seq<real>, lo: nat, hi: nat): (r: real)
    requires lo < hi <= |s|
    ensures exists k :: lo <= k < hi && s[k] == r
    ensures forall k :: lo <= k < hi ==> r <= s[k]
  {
    var w := s[lo..hi];
    assert forall k :: lo <= k < hi ==> s[k] == w[k - lo];
    var r := MinOf(w);
    var k :| 0 <= k < |w| && w[k] == r;
    assert s[lo + k] == r;
    r
  }

  /** Largest of `s[lo..hi]`, located by its offset in `s`. */
  function MaxIn(s: seq<real>, lo: nat, hi: nat): (r: real)
    requires lo < hi <= |s|
    ensures exists k :: lo <= k < hi && s[k] == r
    ensures forall k :: lo <= k < hi ==> s[k] <= r
  {
    var w := s[lo..hi];
    assert forall k :: lo <= k < hi ==> s[k] == w[k - lo];
    var r := MaxOf(w);
    var k :| 0 <= k < |w| && w[k] == r;
    assert s[lo + k] == r;
    r
  }

  /** A flag sequence whose first flag is false counts at most |s| - 1. */
  lemma {:induction false} CountBound(s: seq<bool>)
    ensures Count(s) <= |s|
    ensures |s| > 0 && !s[0] ==> Count(s) <= |s| - 1
  {
    if |s| > 0 {
      CountBound(s[1..]);
    }
  }

  /** Counting a flag sequence that splits into two disjoint ones. */
  lemma {:induction false} CountSplit(c: seq<bool>, a: seq<bool>, b: seq<bool>)
    requires |a| == |c| && |b| == |c|
    requires forall i :: 0 <= i < |c| ==> (c[i] <==> a[i] || b[i]) && !(a[i] && b[i])
    ensures Count(c) == Count(a) + Count(b)
  {
    if |c| > 0 {
      CountSplit(c[1..], a[1..], b[1..]);
    }
  }

  /** Appending one flag adds one to the count exactly when it is set. */
  lemma {:induction false} CountAppend(s: seq<bool>, x: bool)
    ensures Count(s + [x]) == Count(s) + (if x then 1 else 0)
  {
    if |s| > 0 {
      assert (s + [x])[1..] == s[1..] + [x];
      CountAppend(s[1..], x);
    }
  }

  /** The first defined entry of `c` from `j` on, and the position it sits
      at: every entry before it is undefined. */
  function FirstSome<T>(c: seq<Option<T>>, j: nat): (r: Option<T>)
    requires j <= |c|
    decreases |c| - j
    ensures r.Some? ==> exists m :: j <= m < |c| && c[m] == r && forall l :: j <= l < m ==> c[l].None?
    ensures r.None? ==> forall m :: j <= m < |c| ==> c[m].None?
  {
    if j == |c| then None
    else if c[j].Some? then c[j]
    else FirstSome(c, j + 1)
  }

  /** Sum of the strictly positive elements (`r[r > 0].sum()`). */
  function SumPositive(s: seq<real>): real
  {
    if |s| == 0 then 0.0
    else (if s[|s| - 1] > 0.0 then s[|s| - 1] else 0.0) + SumPositive(s[..|s| - 1])
  }

  /** Sum of the strictly negative elements (`r[r < 0].sum()`). */
  function SumNegative(s: seq<real>): real
  {
    if |s| == 0 then 0.0
    else (if s[|s| - 1] < 0.0 then s[|s| - 1] else 0.0) + SumNegative(s[..|s| - 1])
  }

  /** Gains are positive exactly when some element is positive. */
  lemma {:induction false} SumPositiveSign(s: seq<real>)
    ensures SumPositive(s) >= 0.0
    ensures SumPositive(s) > 0.0 <==> exists k :: 0 <= k < |s| && s[k] > 0.0
  {
    if |s| > 0 {
      var p := s[..|s| - 1];
      SumPositiveSign(p);
      assert forall k :: 0 <= k < |p| ==> p[k] == s[k];
      if SumPositive(p) > 0.0 {
        var k :| 0 <= k < |p| && p[k] > 0.0;
        assert s[k] > 0.0;
      }
    }
  }

  /** Losses are negative exactly when some element is negative. */
  lemma {:induction false} SumNegativeSign(s: seq<real>)
    ensures SumNegative(s) <= 0.0
    ensures SumNegative(s) < 0.0 <==> exists k :: 0 <= k < |s| && s[k] < 0.0
  {
    if |s| > 0 {
      var p := s[..|s| - 1];
      SumNegativeSign(p);
      assert forall k :: 0 <= k < |p| ==> p[k] == s[k];
      if SumNegative(p) < 0.0 {
        var k :| 0 <= k < |p| && p[k] < 0.0;
        assert s[k] < 0.0;
      }
    }
  }
}
