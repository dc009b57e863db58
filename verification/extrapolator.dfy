/** Extrapolation of table-level statistics from the (pseudo-)partitions that
    have them (DecimalColumnStatsAggregator.extrapolate). Each statistic is
    read off the straight line through its two extreme samples, positioned by
    partition ordinal, at the border of the partition range the line points to.
    The extremes are the head and tail of one list sorted in place three
    times: by low value, then by high value, then by NDV. */
module Extrapolator {
  import opened Common
  import opened ColumnStats
  import opened Sorting

  /** The list after the low-value sort. */
  function ByLow(cs: seq<Contributor>): (r: seq<Contributor>)
    ensures |r| == |cs| && multiset(r) == multiset(cs)
  {
    SortBy(cs, LowField)
  }

  /** The list after the high-value sort, which breaks ties by low order. */
  function ByHigh(cs: seq<Contributor>): (r: seq<Contributor>)
    ensures |r| == |cs| && multiset(r) == multiset(cs)
  {
    SortBy(ByLow(cs), HighField)
  }

  /** The list after the NDV sort, which breaks ties by high order. */
  function ByNdv(cs: seq<Contributor>): (r: seq<Contributor>)
    ensures |r| == |cs| && multiset(r) == multiset(cs)
  {
    SortBy(ByHigh(cs), NdvField)
  }

  /** The value at `x` of the straight line through (p0, v0) and (p1, v1). */
  function Line(p0: real, v0: real, p1: real, v1: real, x: real): real
    requires p0 != p1
  {
    v0 + (v1 - v0) * (x - p0) / (p1 - p0)
  }

  /** Extrapolation of a statistic whose table value is the smallest one (the
      low value): toward position 0 when the values grow with the position,
      toward the right border when they shrink. */
  function ExtrapolateDown(minInd: real, maxInd: real, min: real, max: real, rightBorder: real): (r: real)
    ensures minInd == maxInd ==> r == min
    ensures minInd != maxInd ==> r == Line(minInd, min, maxInd, max, if minInd < maxInd then 0.0 else rightBorder)
    ensures 0.0 <= minInd <= rightBorder && 0.0 <= maxInd <= rightBorder && min <= max ==> r <= min
  {
    if minInd == maxInd then min
    else if minInd < maxInd then
      DownToZero(minInd, maxInd, min, max);
      max - (max - min) * maxInd / (maxInd - minInd)
    else
      DownToBorder(minInd, maxInd, min, max, rightBorder);
      max - (max - min) * (rightBorder - maxInd) / (minInd - maxInd)
  }

  /** Extrapolation of a statistic whose table value is the largest one (the
      high value, the NDV): toward the right border when the values grow with
      the position, toward position 0 when they shrink. */
  function ExtrapolateUp(minInd: real, maxInd: real, min: real, max: real, rightBorder: real): (r: real)
    ensures minInd == maxInd ==> r == min
    ensures minInd != maxInd ==> r == Line(minInd, min, maxInd, max, if minInd < maxInd then rightBorder else 0.0)
    ensures 0.0 <= minInd <= rightBorder && 0.0 <= maxInd <= rightBorder && min <= max && minInd != maxInd ==> r >= max
  {
    if minInd == maxInd then min
    else if minInd < maxInd then
      UpToBorder(minInd, maxInd, min, max, rightBorder);
      min + (max - min) * (rightBorder - minInd) / (maxInd - minInd)
    else
      UpToZero(minInd, maxInd, min, max);
      min + (max - min) * minInd / (minInd - maxInd)
  }

  /** The low rule toward position 0 is the line through both samples read
      at 0, and with the smaller sample first it lies below that sample. */
  lemma DownToZero(minInd: real, maxInd: real, min: real, max: real)
    requires minInd < maxInd
    ensures var r := max - (max - min) * maxInd / (maxInd - minInd);
      && r == Line(minInd, min, maxInd, max, 0.0)
      && (0.0 <= minInd && min <= max ==> r <= min)
  {
    var d := maxInd - minInd;
    assert (max - min) * (0.0 - maxInd) / d + (max - min) == (max - min) * (0.0 - minInd) / d by {
      assert (max - min) * (0.0 - maxInd) + (max - min) * d == (max - min) * (0.0 - minInd);
    }
    assert (max - min) * maxInd / d == -((max - min) * (0.0 - maxInd) / d);
    ScaledAtLeast(max - min, maxInd, d);
  }

  /** The low rule toward the right border is the line through both samples
      read at the border, and with both positions inside it lies below the
      smaller sample. */
  lemma DownToBorder(minInd: real, maxInd: real, min: real, max: real, rightBorder: real)
    requires minInd > maxInd
    ensures var r := max - (max - min) * (rightBorder - maxInd) / (minInd - maxInd);
      && r == Line(minInd, min, maxInd, max, rightBorder)
      && (minInd <= rightBorder && min <= max ==> r <= min)
  {
    var d := maxInd - minInd;
    assert (max - min) * (rightBorder - maxInd) / d + (max - min) == (max - min) * (rightBorder - minInd) / d by {
      assert (max - min) * (rightBorder - maxInd) + (max - min) * d == (max - min) * (rightBorder - minInd);
    }
    assert (max - min) * (rightBorder - maxInd) / (minInd - maxInd) == -((max - min) * (rightBorder - maxInd) / d);
    ScaledAtLeast(max - min, rightBorder - maxInd, minInd - maxInd);
  }

  /** The high rule toward the right border is the line through both
      samples read at the border, and with both positions inside it lies
      above the larger sample. */
  lemma UpToBorder(minInd: real, maxInd: real, min: real, max: real, rightBorder: real)
    requires minInd < maxInd
    ensures var r := min + (max - min) * (rightBorder - minInd) / (maxInd - minInd);
      && r == Line(minInd, min, maxInd, max, rightBorder)
      && (maxInd <= rightBorder && min <= max ==> r >= max)
  {
    ScaledAtLeast(max - min, rightBorder - minInd, maxInd - minInd);
  }

  /** The high rule toward position 0 is the line through both samples read
      at 0, and with the larger sample first it lies above that sample. */
  lemma UpToZero(minInd: real, maxInd: real, min: real, max: real)
    requires minInd > maxInd
    ensures var r := min + (max - min) * minInd / (minInd - maxInd);
      && r == Line(minInd, min, maxInd, max, 0.0)
      && (0.0 <= maxInd && min <= max ==> r >= max)
  {
    var d := maxInd - minInd;
    assert (max - min) * minInd / (minInd - maxInd) == (max - min) * (0.0 - minInd) / d;
    ScaledAtLeast(max - min, minInd, minInd - maxInd);
  }

  /** `a * b / d >= a` when `b >= d > 0` and `a >= 0`. */
  lemma ScaledAtLeast(a: real, b: real, d: real)
    requires d > 0.0
    ensures a >= 0.0 && b >= d ==> a * b / d >= a
  {
    if a >= 0.0 && b >= d {
      assert a * b >= a * d;
      assert a * b / d >= a * d / d;
    }
  }

  ghost predicate PositionsWithin(cs: seq<Contributor>, numParts: int) {
    forall i :: 0 <= i < |cs| ==> 0.0 <= cs[i].pos <= numParts as real
  }

  /** The head and tail of a sort on `f` of a permutation `b` of `cs`
      bracket every value of `cs`, and lie inside the partition range when
      every entry of `cs` does. */
  lemma SortEnds(cs: seq<Contributor>, b: seq<Contributor>, f: Field, numParts: int)
    requires |b| > 0 && multiset(b) == multiset(cs)
    ensures var s := SortBy(b, f);
      && (forall i :: 0 <= i < |cs| ==> FieldValue(s[0], f) <= FieldValue(cs[i], f) <= FieldValue(s[|s| - 1], f))
      && (PositionsWithin(cs, numParts) ==> 0.0 <= s[0].pos <= numParts as real && 0.0 <= s[|s| - 1].pos <= numParts as real)
      && s[|s| - 1] in cs
  {
    var s := SortBy(b, f);
    SortedEnds(b, f);
    forall i | 0 <= i < |cs|
      ensures FieldValue(s[0], f) <= FieldValue(cs[i], f) <= FieldValue(s[|s| - 1], f)
    {
      assert cs[i] in multiset(b);
    }
    assert s[0] in multiset(cs) && s[|s| - 1] in multiset(cs);
    var k0 :| 0 <= k0 < |cs| && cs[k0] == s[0];
    var k1 :| 0 <= k1 < |cs| && cs[k1] == s[|s| - 1];
  }

  lemma ByHighKeepsDistinctPositions(cs: seq<Contributor>)
    ensures DistinctPositions(cs) ==> DistinctPositions(ByHigh(cs))
  {
    if DistinctPositions(cs) {
      SortKeepsDistinctPositions(cs, LowField);
      SortKeepsDistinctPositions(ByLow(cs), HighField);
    }
  }

  lemma ByNdvKeepsDistinctPositions(cs: seq<Contributor>)
    ensures DistinctPositions(cs) ==> DistinctPositions(ByNdv(cs))
  {
    if DistinctPositions(cs) {
      ByHighKeepsDistinctPositions(cs);
      SortKeepsDistinctPositions(ByHigh(cs), NdvField);
    }
  }

  /** The ends of the low-value sort. */
  lemma LowEnds(cs: seq<Contributor>, numParts: int)
    requires |cs| > 0
    ensures var s := ByLow(cs);
      && (forall i :: 0 <= i < |cs| ==> s[0].stats.low <= cs[i].stats.low <= s[|s| - 1].stats.low)
      && (PositionsWithin(cs, numParts) ==> 0.0 <= s[0].pos <= numParts as real && 0.0 <= s[|s| - 1].pos <= numParts as real)
  {
    SortEnds(cs, cs, LowField, numParts);
  }

  /** The ends of the high-value sort; with distinct positions they sit at
      distinct positions unless the list has one entry. */
  lemma HighEnds(cs: seq<Contributor>, numParts: int)
    requires |cs| > 0
    ensures var s := ByHigh(cs);
      && (forall i :: 0 <= i < |cs| ==> s[0].stats.high <= cs[i].stats.high <= s[|s| - 1].stats.high)
      && (PositionsWithin(cs, numParts) ==> 0.0 <= s[0].pos <= numParts as real && 0.0 <= s[|s| - 1].pos <= numParts as real)
      && (DistinctPositions(cs) && |s| > 1 ==> s[0].pos != s[|s| - 1].pos)
  {
    SortEnds(cs, ByLow(cs), HighField, numParts);
    ByHighKeepsDistinctPositions(cs);
  }

  /** The ends of the NDV sort; with distinct positions they sit at distinct
      positions unless the list has one entry, and the tail's NDV is a
      non-negative long when every NDV is. */
  lemma NdvEnds(cs: seq<Contributor>, numParts: int)
    requires |cs| > 0
    ensures var s := ByNdv(cs);
      && (forall i :: 0 <= i < |cs| ==> s[0].stats.numDVs <= cs[i].stats.numDVs <= s[|s| - 1].stats.numDVs)
      && (PositionsWithin(cs, numParts) ==> 0.0 <= s[0].pos <= numParts as real && 0.0 <= s[|s| - 1].pos <= numParts as real)
      && (DistinctPositions(cs) && |s| > 1 ==> s[0].pos != s[|s| - 1].pos)
      && ((forall i :: 0 <= i < |cs| ==> 0 <= cs[i].stats.numDVs <= LONG_MAX) ==> 0 <= s[|s| - 1].stats.numDVs <= LONG_MAX)
      && s[|s| - 1] in cs
  {
    var s := ByNdv(cs);
    SortEnds(cs, ByHigh(cs), NdvField, numParts);
    ByNdvKeepsDistinctPositions(cs);
    var k :| 0 <= k < |cs| && cs[k] == s[|s| - 1];
  }

  /** The table low value: the low rule through the head and tail of the
      low-value sort. With every position inside the partition range it lies
      at or below every contributor's low. */
  function ExtrapolatedLow(cs: seq<Contributor>, numParts: int): (r: real)
    requires |cs| > 0
    ensures PositionsWithin(cs, numParts) ==> forall i :: 0 <= i < |cs| ==> r <= cs[i].stats.low
  {
    var s := ByLow(cs);
    LowEnds(cs, numParts);
    ExtrapolateDown(s[0].pos, s[|s| - 1].pos, s[0].stats.low, s[|s| - 1].stats.low, numParts as real)
  }

  /** The table high value: the high rule through the head and tail of the
      high-value sort. With distinct positions inside the partition range it
      lies at or above every contributor's high. */
  function ExtrapolatedHigh(cs: seq<Contributor>, numParts: int): (r: real)
    requires |cs| > 0
    ensures PositionsWithin(cs, numParts) && DistinctPositions(cs) ==>
      forall i :: 0 <= i < |cs| ==> r >= cs[i].stats.high
  {
    var s := ByHigh(cs);
    HighEnds(cs, numParts);
    ExtrapolateUp(s[0].pos, s[|s| - 1].pos, s[0].stats.high, s[|s| - 1].stats.high, numParts as real)
  }

  /** The NDV read off the line through the head and tail of the NDV sort,
      truncated to a long. With distinct positions inside the partition range
      and NDVs that are non-negative longs, it is at least every
      contributor's NDV. */
  function LinearNdv(cs: seq<Contributor>, numParts: int): (r: int)
    requires |cs| > 0
    ensures (&& PositionsWithin(cs, numParts) && DistinctPositions(cs)
             && forall i :: 0 <= i < |cs| ==> 0 <= cs[i].stats.numDVs <= LONG_MAX) ==>
      forall i :: 0 <= i < |cs| ==> r >= cs[i].stats.numDVs
  {
    var s := ByNdv(cs);
    NdvEnds(cs, numParts);
    var t := s[|s| - 1];
    if s[0].pos == t.pos then s[0].stats.numDVs
    else
      var x := ExtrapolateUp(s[0].pos, t.pos, s[0].stats.numDVs as real, t.stats.numDVs as real, numParts as real);
      LongCastAtLeast(x, t.stats.numDVs);
      LongCast(x)
  }

  /** The truncating cast keeps a value that is at least a non-negative long. */
  lemma LongCastAtLeast(x: real, m: int)
    ensures 0 <= m <= LONG_MAX && x >= m as real ==> LongCast(x) >= m
  {
  }

  /** `n` is the estimate `e` kept between the bounds `lb` and `hb`, the
      lower bound taking precedence when the bounds cross. */
  predicate ClampedTo(n: int, e: int, lb: int, hb: int) {
    && (e < lb ==> n == lb)
    && (lb <= e <= hb ==> n == e)
    && (lb <= e && hb < e ==> n == hb)
  }

  /** Keep an estimate between a lower and a higher bound. */
  function Clamp(est: int, lowerBound: int, higherBound: int): (r: int)
    ensures ClampedTo(r, est, lowerBound, higherBound)
    ensures lowerBound <= higherBound ==> lowerBound <= r <= higherBound
  {
    if est < lowerBound then lowerBound
    else if est > higherBound then higherBound
    else est
  }

  /** The bounds of the density estimate: the NDV sort's tail holds the
      largest contributor NDV, and the sorted list keeps the NDV total. */
  lemma NdvSortBounds(cs: seq<Contributor>)
    requires |cs| > 0
    ensures var s := ByNdv(cs);
      && s[|s| - 1].stats.numDVs == TopNdv(StatsOf(cs))
      && SumNdv(StatsOf(s)) == SumNdv(StatsOf(cs))
  {
    NdvTailIsTop(cs);
    SortKeepsNdvSum(cs, LowField);
    SortKeepsNdvSum(ByLow(cs), HighField);
    SortKeepsNdvSum(ByHigh(cs), NdvField);
  }

  lemma NdvTailIsTop(cs: seq<Contributor>)
    requires |cs| > 0
    ensures var s := ByNdv(cs); s[|s| - 1].stats.numDVs == TopNdv(StatsOf(cs))
  {
    var s := ByNdv(cs);
    NdvEnds(cs, 0);
    GreatestNdvIsTop(cs, s[|s| - 1]);
  }

  /** An entry whose NDV is at least every other one's holds the largest NDV. */
  lemma GreatestNdvIsTop(cs: seq<Contributor>, t: Contributor)
    requires t in cs
    requires forall i :: 0 <= i < |cs| ==> cs[i].stats.numDVs <= t.stats.numDVs
    ensures |cs| > 0 && t.stats.numDVs == TopNdv(StatsOf(cs))
  {
    var ds := StatsOf(cs);
    var m := TopNdv(ds);
    var k :| 0 <= k < |cs| && cs[k] == t;
    var j :| 0 <= j < |ds| && ds[j].numDVs == m;
    assert ds[k].numDVs <= m;
    assert cs[j].stats.numDVs <= t.stats.numDVs;
  }

  /** Table-level statistics extrapolated from `cs`, the (pseudo-)partitions
      with statistics, over `numParts` partitions of which `numPartsWithStats`
      reported statistics; `densityAvg` is the average density of `cs`. The
      null count is the contributors' total scaled by
      `numParts / numPartsWithStats` in integer arithmetic. In density mode
      the NDV is the value range over the average density, kept between the
      largest contributor NDV and the NDV total; otherwise it is the linear
      NDV. */
  function Extrapolate(useDensity: bool, numParts: int, numPartsWithStats: int,
                       cs: seq<Contributor>, densityAvg: Double): (r: DecimalStats)
    requires |cs| > 0 && numPartsWithStats > 0 && numParts >= 0
    ensures r.low == ExtrapolatedLow(cs, numParts) && r.high == ExtrapolatedHigh(cs, numParts)
    ensures r.bitVectors.None?
    ensures SumNulls(StatsOf(cs)) >= 0 ==> ScaledDown(r.numNulls, SumNulls(StatsOf(cs)), numParts, numPartsWithStats)
    ensures useDensity && densityAvg != Finite(0.0) ==>
      ClampedTo(r.numDVs, LongOfDoubleQuotient(r.high - r.low, densityAvg), TopNdv(StatsOf(cs)), SumNdv(StatsOf(cs)))
    ensures !(useDensity && densityAvg != Finite(0.0)) ==> r.numDVs == LinearNdv(cs, numParts)
  {
    var low := ExtrapolatedLow(cs, numParts);
    var high := ExtrapolatedHigh(cs, numParts);
    var numNulls := ScaleNulls(SumNulls(StatsOf(cs)), numParts, numPartsWithStats);
    var range := high - low;
    var ndv := EstimatedNdv(useDensity, numParts, cs, densityAvg, range);
    var r := DecimalStats(low, high, numNulls, ndv, None);
    assert r.high - r.low == range;
    r
  }

  /** The extrapolated NDV for the value range `range`: in density mode the
      range over the average density, kept between the largest contributor
      NDV and the NDV total; otherwise the linear NDV. */
  function EstimatedNdv(useDensity: bool, numParts: int, cs: seq<Contributor>, densityAvg: Double, range: real): (ndv: int)
    requires |cs| > 0
    ensures useDensity && densityAvg != Finite(0.0) ==>
      ClampedTo(ndv, LongOfDoubleQuotient(range, densityAvg), TopNdv(StatsOf(cs)), SumNdv(StatsOf(cs)))
    ensures !(useDensity && densityAvg != Finite(0.0)) ==> ndv == LinearNdv(cs, numParts)
  {
    var s := ByNdv(cs);
    NdvSortBounds(cs);
    var lowerBound := s[|s| - 1].stats.numDVs;
    var higherBound := SumNdv(StatsOf(s));
    if useDensity && densityAvg != Finite(0.0) then
      Clamp(LongOfDoubleQuotient(range, densityAvg), lowerBound, higherBound)
    else
      LinearNdv(cs, numParts)
  }

  /** `n` is `total * numParts / numPartsWithStats`, rounded down. */
  ghost predicate ScaledDown(n: int, total: int, numParts: int, numPartsWithStats: int) {
    n * numPartsWithStats <= total * numParts < (n + 1) * numPartsWithStats
  }

  /** `nulls * numParts / numPartsWithStats` on longs: for a non-negative total
      it is the floor of the scaled-up count. */
  function ScaleNulls(nulls: int, numParts: int, numPartsWithStats: int): (r: int)
    requires numPartsWithStats > 0 && numParts >= 0
    ensures nulls >= 0 ==> ScaledDown(r, nulls, numParts, numPartsWithStats)
  {
    var scaled := nulls * numParts;
    assert nulls >= 0 ==> scaled >= 0 by {
      if nulls >= 0 {
        ProductNonNegative(nulls, numParts);
      }
    }
    JavaDiv(scaled, numPartsWithStats)
  }

  lemma ProductNonNegative(a: int, b: int)
    requires a >= 0 && b >= 0
    ensures a * b >= 0
  {
  }

  /** With non-negative NDVs the largest one is at most their sum. */
  lemma TopNdvAtMostSum(ds: seq<DecimalStats>)
    requires |ds| > 0
    requires forall i :: 0 <= i < |ds| ==> ds[i].numDVs >= 0
    ensures TopNdv(ds) <= SumNdv(ds)
  {
    var j :| 0 <= j < |ds| && ds[j].numDVs == TopNdv(ds);
    assert ds[j].numDVs <= MaxNdv(ds);
    MaxNdvAtMostSum(ds);
  }

  /** In density mode (with a non-zero average density) the extrapolated NDV
      lies between the largest contributor NDV and the sum of all of them. */
  lemma ExtrapolatedNdvDensityBounds(numParts: int, numPartsWithStats: int,
                                     cs: seq<Contributor>, densityAvg: Double)
    requires |cs| > 0 && numPartsWithStats > 0 && numParts >= 0
    requires densityAvg != Finite(0.0)
    requires forall i :: 0 <= i < |cs| ==> cs[i].stats.numDVs >= 0
    ensures var r := Extrapolate(true, numParts, numPartsWithStats, cs, densityAvg);
      && (forall i :: 0 <= i < |cs| ==> cs[i].stats.numDVs <= r.numDVs)
      && r.numDVs <= SumNdv(StatsOf(cs))
  {
    var ds := StatsOf(cs);
    assert forall i :: 0 <= i < |cs| ==> ds[i] == cs[i].stats;
    TopNdvAtMostSum(ds);
  }

  /** A single contributor is extrapolated to its own low, high and NDV. */
  lemma SingleContributorExtrapolation(useDensity: bool, numParts: int, numPartsWithStats: int,
                                       c: Contributor, densityAvg: Double)
    requires numPartsWithStats > 0 && numParts >= 0
    ensures var r := Extrapolate(useDensity, numParts, numPartsWithStats, [c], densityAvg);
      r.low == c.stats.low && r.high == c.stats.high && r.numDVs == c.stats.numDVs
  {
    assert StatsOf([c]) == [c.stats];
    assert SumNdv([c.stats]) == c.stats.numDVs by {
      assert [c.stats][..0] == [];
    }
    assert ByLow([c]) == [c];
    assert ByHigh([c]) == [c];
    assert ByNdv([c]) == [c];
  }
}
