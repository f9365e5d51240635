/**
 Data skew: the largest member against the median one
 (backend/internal/service/storage_service.go:279-334). Ratios are exact.
 */
module Skew {
  import opened Wrappers
  import opened Totals
  import opened Sorting

  const SKEW_THRESHOLD: real := 1.5

  /** Integer division that truncates towards zero, as the source's does. */
  function Truncated(a: int, b: int): int
    requires b > 0
  {
    if a >= 0 then a / b else -((-a) / b)
  }

  function MiddleOf(sorted: seq<int>): int
    requires sorted != []
  {
    var h := |sorted| / 2;
    if |sorted| % 2 == 0 then Truncated(sorted[h - 1] + sorted[h], 2) else sorted[h]
  }

  function Median(values: seq<int>): int
    requires values != []
  {
    StableSortSorts(values, IntLess);
    MiddleOf(StableSort(values, IntLess))
  }

  /** The largest value over the median, or nothing when the median is not positive. */
  function RatioToMedian(values: seq<int>): Option<real>
    requires values != []
  {
    StableSortSorts(values, IntLess);
    var sorted := StableSort(values, IntLess);
    var median := MiddleOf(sorted);
    if median <= 0 then None else Some(sorted[|sorted| - 1] as real / median as real)
  }

  datatype Measure = Measure(rowsRatio: Option<real>, bytesRatio: Option<real>, skewed: bool)

  predicate OverThreshold(ratio: Option<real>) {
    ratio.Some? && ratio.value > SKEW_THRESHOLD
  }

  function MeasureSkew(rows: seq<int>, bytes: seq<int>): Measure
    requires |rows| == |bytes|
  {
    if |rows| < 2 then Measure(None, None, false)
    else
      var rowsRatio, bytesRatio := RatioToMedian(rows), RatioToMedian(bytes);
      Measure(rowsRatio, bytesRatio, OverThreshold(rowsRatio) || OverThreshold(bytesRatio))
  }

  // ----- What the median and the ratio mean -----

  lemma SortedValues(values: seq<int>)
    ensures var sorted := StableSort(values, IntLess);
            && |sorted| == |values| && multiset(sorted) == multiset(values)
            && forall i, j :: 0 <= i <= j < |sorted| ==> sorted[i] <= sorted[j]
  {
    IntLessIsTotal();
    StableSortSorts(values, IntLess);
  }

  lemma UniqueOrder(s: seq<int>, t: seq<int>)
    requires forall i, j :: 0 <= i < j < |s| ==> s[i] <= s[j]
    requires forall i, j :: 0 <= i < j < |t| ==> t[i] <= t[j]
    requires multiset(s) == multiset(t)
    ensures s == t
  {
    IntLessIsTotal();
    SortedIsUnique(s, t, IntLess);
  }

  /** A mean of two values, truncated either way, lies between them. */
  lemma TruncatedBetween(a: int, b: int)
    requires a <= b
    ensures a <= Truncated(a + b, 2) <= b
  {
  }

  /** At least half of the values are no larger than the bound. */
  ghost predicate HalfUpTo(values: seq<int>, bound: int) {
    exists part: multiset<int> :: part <= multiset(values) && 2 * |part| >= |values| && forall x :: x in part ==> x <= bound
  }

  /** At least half of the values are no smaller than the bound. */
  ghost predicate HalfFrom(values: seq<int>, bound: int) {
    exists part: multiset<int> :: part <= multiset(values) && 2 * |part| >= |values| && forall x :: x in part ==> x >= bound
  }

  lemma LowPart(values: seq<int>, sorted: seq<int>, k: nat, bound: int)
    requires multiset(sorted) == multiset(values) && |sorted| == |values| && k <= |sorted| && 2 * k >= |values|
    requires forall i :: 0 <= i < k ==> sorted[i] <= bound
    ensures HalfUpTo(values, bound)
  {
    var part := multiset(sorted[..k]);
    assert sorted == sorted[..k] + sorted[k..];
    assert part <= multiset(values) && |part| == k;
    assert forall x :: x in part ==> x in sorted[..k];
  }

  lemma HighPart(values: seq<int>, sorted: seq<int>, k: nat, bound: int)
    requires multiset(sorted) == multiset(values) && |sorted| == |values| && 2 * k <= |values|
    requires forall i :: k <= i < |sorted| ==> sorted[i] >= bound
    ensures HalfFrom(values, bound)
  {
    var part := multiset(sorted[k..]);
    assert sorted == sorted[..k] + sorted[k..];
    assert part <= multiset(values) && |part| == |values| - k;
    assert forall x :: x in part ==> x in sorted[k..];
  }

  lemma MiddleBounds(sorted: seq<int>)
    requires sorted != [] && forall i, j :: 0 <= i <= j < |sorted| ==> sorted[i] <= sorted[j]
    ensures forall i :: 0 <= i && 2 * i < |sorted| ==> sorted[i] <= MiddleOf(sorted)
    ensures forall i :: |sorted| / 2 <= i < |sorted| ==> sorted[i] >= MiddleOf(sorted)
  {
    var h := |sorted| / 2;
    if |sorted| % 2 == 0 {
      TruncatedBetween(sorted[h - 1], sorted[h]);
      assert forall i :: 0 <= i < h ==> sorted[i] <= sorted[h - 1];
    }
  }

  /** At least half of the values lie on each side of the median, truncation and sign notwithstanding. */
  lemma MedianHalves(values: seq<int>)
    requires values != []
    ensures HalfUpTo(values, Median(values)) && HalfFrom(values, Median(values))
  {
    SortedValues(values);
    var sorted := StableSort(values, IntLess);
    MiddleBounds(sorted);
    LowPart(values, sorted, (|sorted| + 1) / 2, MiddleOf(sorted));
    HighPart(values, sorted, |sorted| / 2, MiddleOf(sorted));
  }

  /**
   The median is the middle value of any sorted arrangement, or for an even number the mean of the two
   middle ones, to the nearest half and towards zero.
   */
  lemma MedianIsMiddle(values: seq<int>, sorted: seq<int>)
    requires values != [] && multiset(sorted) == multiset(values)
    requires forall i, j :: 0 <= i < j < |sorted| ==> sorted[i] <= sorted[j]
    ensures |sorted| == |values|
    ensures var h := |values| / 2;
            if |values| % 2 == 1 then Median(values) == sorted[h]
            else
              var sum := sorted[h - 1] + sorted[h];
              && -1 <= 2 * Median(values) - sum <= 1
              && (sum >= 0 ==> 0 <= 2 * Median(values) <= sum)
              && (sum <= 0 ==> sum <= 2 * Median(values) <= 0)
  {
    SameSize(values, sorted);
    SortedValues(values);
    UniqueOrder(StableSort(values, IntLess), sorted);
  }

  function Negated(values: seq<int>): (r: seq<int>)
    ensures |r| == |values| && forall i :: 0 <= i < |values| ==> r[i] == -values[i]
  {
    seq(|values|, i requires 0 <= i < |values| => -values[i])
  }

  function Mirrored(s: seq<int>): (r: seq<int>)
    ensures |r| == |s| && forall i :: 0 <= i < |s| ==> r[i] == s[|s| - 1 - i]
  {
    seq(|s|, i requires 0 <= i < |s| => s[|s| - 1 - i])
  }

  lemma {:induction false} MirroredKeeps(s: seq<int>)
    ensures multiset(Mirrored(s)) == multiset(s)
  {
    if s != [] {
      var n := |s| - 1;
      MirroredKeeps(s[..n]);
      assert s == s[..n] + [s[n]];
      assert Mirrored(s) == [s[n]] + Mirrored(s[..n]);
    }
  }

  lemma {:induction false} NegatedKeeps(s: seq<int>, t: seq<int>)
    requires multiset(s) == multiset(t)
    ensures multiset(Negated(s)) == multiset(Negated(t))
  {
    var negate := (x: int) => -x;
    assert Negated(s) == Map(s, negate) && Negated(t) == Map(t, negate);
    MapForgetsOrder(s, t, negate);
  }

  /** Negating the values negates the median: no side is favoured. */
  lemma MedianOfNegated(values: seq<int>)
    requires values != []
    ensures Median(Negated(values)) == -Median(values)
  {
    SortedValues(values);
    var sorted := StableSort(values, IntLess);
    var mirrored := Mirrored(Negated(sorted));
    NegatedKeeps(values, sorted);
    MirroredKeeps(Negated(sorted));
    SortedValues(Negated(values));
    UniqueOrder(StableSort(Negated(values), IntLess), mirrored);
    MirroredMiddle(sorted);
  }

  lemma MirroredMiddle(sorted: seq<int>)
    requires sorted != []
    ensures MiddleOf(Mirrored(Negated(sorted))) == -MiddleOf(sorted)
  {
  }

  /** The ratio is a largest member over the median; there is one exactly when the median is positive. */
  lemma RatioIsLargestOverMedian(values: seq<int>, i: nat)
    requires i < |values| && forall j :: 0 <= j < |values| ==> values[j] <= values[i]
    ensures RatioToMedian(values) == if Median(values) <= 0 then None else Some(values[i] as real / Median(values) as real)
  {
    LargestIsLast(values, i);
  }

  /** The order of the values is irrelevant. */
  lemma RatioForgetsOrder(s: seq<int>, t: seq<int>)
    requires s != [] && multiset(s) == multiset(t)
    ensures t != [] && Median(s) == Median(t) && RatioToMedian(s) == RatioToMedian(t)
  {
    SameSize(s, t);
    IntLessIsTotal();
    SortForgetsOrder(s, t, IntLess);
  }

  lemma TopIsAboveMiddle(sorted: seq<int>)
    requires sorted != [] && forall i, j :: 0 <= i <= j < |sorted| ==> sorted[i] <= sorted[j]
    ensures sorted[|sorted| - 1] >= MiddleOf(sorted)
    ensures (forall i :: 0 <= i < |sorted| ==> sorted[i] == sorted[0]) ==> sorted[|sorted| - 1] == MiddleOf(sorted)
  {
    var h := |sorted| / 2;
    if |sorted| % 2 == 0 {
      TruncatedBetween(sorted[h - 1], sorted[h]);
    }
  }

  lemma EvenValues(values: seq<int>)
    requires values != [] && forall i :: 0 <= i < |values| ==> values[i] == values[0]
    ensures |StableSort(values, IntLess)| == |values|
    ensures forall i :: 0 <= i < |values| ==> StableSort(values, IntLess)[i] == values[0]
  {
    SortedValues(values);
    var sorted := StableSort(values, IntLess);
    forall i | 0 <= i < |sorted|
      ensures sorted[i] == values[0]
    {
      assert sorted[i] in multiset(values);
    }
  }

  /** The largest member is never below the median, and a ratio of one is what even values give. */
  lemma RatioAtLeastOne(values: seq<int>)
    requires values != [] && RatioToMedian(values).Some?
    ensures RatioToMedian(values).value >= 1.0
    ensures (forall i :: 0 <= i < |values| ==> values[i] == values[0]) ==> RatioToMedian(values).value == 1.0
  {
    SortedValues(values);
    var sorted, median := StableSort(values, IntLess), Median(values);
    TopIsAboveMiddle(sorted);
    AtLeastOne(sorted[|sorted| - 1], median);
    if forall i :: 0 <= i < |values| ==> values[i] == values[0] {
      EvenValues(values);
    }
  }

  lemma AtLeastOne(a: int, b: int)
    requires a >= b > 0
    ensures a as real / b as real >= 1.0
    ensures a == b ==> a as real / b as real == 1.0
  {
    assert b as real / b as real == 1.0;
    if a > b {
      LargerQuotient(b as real, a as real, b as real);
    }
  }

  /** The median is positive and some value is more than half as large again. */
  ghost predicate OverMedian(values: seq<int>)
    requires values != []
  {
    Median(values) > 0 && exists i :: 0 <= i < |values| && 2 * values[i] > 3 * Median(values)
  }

  lemma RatioOverThreshold(values: seq<int>)
    requires values != []
    ensures OverThreshold(RatioToMedian(values)) <==> OverMedian(values)
  {
    SortedValues(values);
    var sorted, median := StableSort(values, IntLess), Median(values);
    var top := sorted[|sorted| - 1];
    assert top in multiset(values);
    var k :| 0 <= k < |values| && values[k] == top;
    forall i | 0 <= i < |values|
      ensures values[i] <= top
    {
      assert values[i] in multiset(sorted);
    }
    if median > 0 {
      QuotientOver(top, median);
    }
  }

  lemma QuotientOver(a: int, b: int)
    requires b > 0
    ensures a as real / b as real > SKEW_THRESHOLD <==> 2 * a > 3 * b
  {
    var q := a as real / b as real;
    assert q * b as real == a as real;
    if q > 1.5 {
      assert (q - 1.5) * b as real > 0.0;
    } else {
      assert (1.5 - q) * b as real >= 0.0;
    }
  }

  /** A measure reports skew exactly when, of two or more members, one is more than half as large again as the median in rows or in bytes. */
  lemma SkewedIffOneStandsOut(rows: seq<int>, bytes: seq<int>)
    requires |rows| == |bytes|
    ensures MeasureSkew(rows, bytes).skewed <==> |rows| >= 2 && (OverMedian(rows) || OverMedian(bytes))
  {
    if |rows| >= 2 {
      RatioOverThreshold(rows);
      RatioOverThreshold(bytes);
    }
  }

  lemma RaisedMultiset(values: seq<int>, i: nat, raised: int, sorted: seq<int>)
    requires i < |values| && |sorted| == |values| && multiset(sorted) == multiset(values)
    requires sorted[|sorted| - 1] == values[i]
    ensures multiset(sorted[..|sorted| - 1] + [raised]) == multiset(values[i := raised])
  {
    assert sorted == sorted[..|sorted| - 1] + [sorted[|sorted| - 1]];
    assert multiset(values[i := raised]) == multiset(values)[values[i] := multiset(values)[values[i]] - 1] + multiset{raised};
  }

  lemma LargestIsLast(values: seq<int>, i: nat)
    requires i < |values| && forall j :: 0 <= j < |values| ==> values[j] <= values[i]
    ensures |StableSort(values, IntLess)| == |values|
    ensures StableSort(values, IntLess)[|values| - 1] == values[i]
  {
    var sorted := StableSort(values, IntLess);
    SortedValues(values);
    assert sorted[|sorted| - 1] in multiset(values) && values[i] in multiset(sorted);
    var k :| 0 <= k < |sorted| && sorted[k] == values[i];
    assert sorted[k] <= sorted[|sorted| - 1];
  }

  /** Raising a largest value keeps it last in order and everything else where it was. */
  lemma RaiseLargest(values: seq<int>, i: nat, raised: int)
    requires i < |values| && values[i] < raised
    requires forall j :: 0 <= j < |values| ==> values[j] <= values[i]
    ensures var sorted := StableSort(values, IntLess);
            && |sorted| == |values| && sorted[|sorted| - 1] == values[i]
            && StableSort(values[i := raised], IntLess) == sorted[..|sorted| - 1] + [raised]
  {
    SortedValues(values);
    SortedValues(values[i := raised]);
    LargestIsLast(values, i);
    RaisedOrder(values, i, raised, StableSort(values, IntLess), StableSort(values[i := raised], IntLess));
  }

  lemma RaisedOrder(values: seq<int>, i: nat, raised: int, sorted: seq<int>, after: seq<int>)
    requires i < |values| && values[i] < raised
    requires |sorted| == |values| && multiset(sorted) == multiset(values) && sorted[|sorted| - 1] == values[i]
    requires multiset(after) == multiset(values[i := raised])
    requires forall j, k :: 0 <= j <= k < |sorted| ==> sorted[j] <= sorted[k]
    requires forall j, k :: 0 <= j <= k < |after| ==> after[j] <= after[k]
    ensures after == sorted[..|sorted| - 1] + [raised]
  {
    RaisedMultiset(values, i, raised, sorted);
    UniqueOrder(after, sorted[..|sorted| - 1] + [raised]);
  }

  /**
   The median is robust: among three or more values, raising a largest one leaves the median as it
   was and, where there is a ratio, strictly raises it.
   */
  lemma OutlierRaisesRatio(values: seq<int>, i: nat, raised: int)
    requires |values| >= 3 && i < |values| && values[i] < raised
    requires forall j :: 0 <= j < |values| ==> values[j] <= values[i]
    ensures var outlier := values[i := raised];
            && Median(outlier) == Median(values)
            && (RatioToMedian(outlier).Some? <==> RatioToMedian(values).Some?)
            && (RatioToMedian(values).Some? ==> RatioToMedian(outlier).value > RatioToMedian(values).value)
  {
    RaiseLargest(values, i, raised);
    SameMiddle(StableSort(values, IntLess), raised);
    if Median(values) > 0 {
      LargerQuotient(values[i] as real, raised as real, Median(values) as real);
    }
  }

  lemma SameMiddle(sorted: seq<int>, raised: int)
    requires |sorted| >= 3
    ensures MiddleOf(sorted[..|sorted| - 1] + [raised]) == MiddleOf(sorted)
  {
  }

  lemma LargerQuotient(a: real, b: real, d: real)
    requires a < b && d > 0.0
    ensures a / d < b / d
  {
  }

  /** So a measure that reports skew goes on reporting it when its largest member grows; rows and bytes weigh alike. */
  lemma SkewedStaysSkewed(rows: seq<int>, bytes: seq<int>, i: nat, raised: int)
    requires |rows| == |bytes| >= 3 && i < |rows| && rows[i] < raised
    requires forall j :: 0 <= j < |rows| ==> rows[j] <= rows[i]
    requires MeasureSkew(rows, bytes).skewed
    ensures MeasureSkew(rows[i := raised], bytes).skewed
    ensures MeasureSkew(bytes, rows).skewed && MeasureSkew(bytes, rows[i := raised]).skewed
  {
    OutlierRaisesRatio(rows, i, raised);
  }
}
