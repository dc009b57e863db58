/** The statistics records the aggregator consumes and produces, and the
    exact scalar merge shared by the direct path and the pseudo-partition
    runs. Decimal and double values are modelled as `real`; counts are Java
    `long`s, kept as unbounded `int`s. */
module ColumnStats {
  import opened Common

  /** Decimal column statistics of one partition (or of the whole table). */
  datatype DecimalStats = DecimalStats(
    low: real,
    high: real,
    numNulls: int,
    numDVs: int,
    bitVectors: Option<string>)

  /** One column's statistics object: its type name and its data. */
  datatype StatsObj = StatsObj(colType: string, data: DecimalStats)

  /** The statistics of one partition: its name and the column objects it
      carries (the aggregator expects exactly one). */
  datatype ColumnStatistics = ColumnStatistics(partName: string, objs: seq<StatsObj>)

  /** The aggregated, table-level statistics object for one column. */
  datatype ColumnStatisticsObj = ColumnStatisticsObj(colName: string, colType: string, data: DecimalStats)

  /** A partition's statistics placed at its ordinal among all partition names. */
  datatype Indexed = Indexed(name: string, index: int, data: DecimalStats)

  /** A (pseudo-)partition handed to the extrapolator: its key, its real-valued
      position among the partitions, and its statistics. */
  datatype Contributor = Contributor(key: string, pos: real, stats: DecimalStats)

  /** True when the partition's statistics carry a non-empty bit-vector sketch. */
  predicate HasBitVectors(d: DecimalStats) {
    d.bitVectors.Some? && |d.bitVectors.value| > 0
  }

  /** The serialised sketch of a partition ("" when it has none). */
  function BitsOf(d: DecimalStats): string {
    if d.bitVectors.Some? then d.bitVectors.value else ""
  }

  /** Fold one more partition into the accumulator: keep the smaller low, the
      larger high, add the null counts and, when `foldNdv`, keep the larger NDV. */
  function MergeInto(agg: DecimalStats, d: DecimalStats, foldNdv: bool): (r: DecimalStats)
    ensures r.low <= agg.low && r.low <= d.low && (r.low == agg.low || r.low == d.low)
    ensures r.high >= agg.high && r.high >= d.high && (r.high == agg.high || r.high == d.high)
    ensures r.numNulls == agg.numNulls + d.numNulls
    ensures foldNdv ==> r.numDVs >= agg.numDVs && r.numDVs >= d.numDVs && (r.numDVs == agg.numDVs || r.numDVs == d.numDVs)
    ensures !foldNdv ==> r.numDVs == agg.numDVs
    ensures r.bitVectors == agg.bitVectors
  {
    agg.(low := if agg.low < d.low then agg.low else d.low,
         high := if agg.high > d.high then agg.high else d.high,
         numNulls := agg.numNulls + d.numNulls,
         numDVs := if foldNdv then Max(agg.numDVs, d.numDVs) else agg.numDVs)
  }

  function SumNulls(ds: seq<DecimalStats>): int {
    if |ds| == 0 then 0 else SumNulls(ds[..|ds| - 1]) + ds[|ds| - 1].numNulls
  }

  function SumNdv(ds: seq<DecimalStats>): int {
    if |ds| == 0 then 0 else SumNdv(ds[..|ds| - 1]) + ds[|ds| - 1].numDVs
  }

  /** The largest NDV, starting from 0. */
  function MaxNdv(ds: seq<DecimalStats>): (m: int)
    ensures m >= 0
    ensures forall i :: 0 <= i < |ds| ==> ds[i].numDVs <= m
    ensures m == 0 || exists i :: 0 <= i < |ds| && ds[i].numDVs == m
  {
    if |ds| == 0 then 0 else Max(MaxNdv(ds[..|ds| - 1]), ds[|ds| - 1].numDVs)
  }

  /** The largest NDV of a non-empty list, without a floor. */
  function TopNdv(ds: seq<DecimalStats>): (m: int)
    requires |ds| > 0
    ensures forall i :: 0 <= i < |ds| ==> ds[i].numDVs <= m
    ensures exists i :: 0 <= i < |ds| && ds[i].numDVs == m
  {
    if |ds| == 1 then ds[0].numDVs
    else
      var m := TopNdv(ds[..|ds| - 1]);
      assert forall i :: 0 <= i < |ds| - 1 ==> ds[..|ds| - 1][i] == ds[i];
      Max(m, ds[|ds| - 1].numDVs)
  }

  /** The value density of a partition: its value range per distinct value.
      With no distinct values the double division gives a non-finite value. */
  function Density(d: DecimalStats): (r: Double)
    ensures r.Finite? <==> d.numDVs != 0
  {
    DivDouble(Finite(d.high - d.low), d.numDVs as real)
  }

  /** Sum of the per-partition densities, in order: non-finite exactly when
      some partition has no distinct values. */
  function SumDensity(ds: seq<DecimalStats>): (r: Double)
    ensures r.NonFinite? <==> exists i :: 0 <= i < |ds| && ds[i].numDVs == 0
  {
    if |ds| == 0 then Finite(0.0)
    else
      var prefix := SumDensity(ds[..|ds| - 1]);
      assert forall i :: 0 <= i < |ds| - 1 ==> ds[..|ds| - 1][i] == ds[i];
      AddDouble(prefix, Density(ds[|ds| - 1]))
  }

  /** The sketches of a list of partitions, in order. */
  function AllBits(ds: seq<DecimalStats>): seq<string> {
    seq(|ds|, i requires 0 <= i < |ds| => BitsOf(ds[i]))
  }

  /** The exact merge of the statistics of several partitions: the first
      record's copy folded with every later one. */
  function MergeAll(ds: seq<DecimalStats>, foldNdv: bool): (r: DecimalStats)
    requires |ds| > 0
    ensures forall i :: 0 <= i < |ds| ==> r.low <= ds[i].low
    ensures exists i :: 0 <= i < |ds| && r.low == ds[i].low
    ensures forall i :: 0 <= i < |ds| ==> r.high >= ds[i].high
    ensures exists i :: 0 <= i < |ds| && r.high == ds[i].high
    ensures r.numNulls == SumNulls(ds)
    ensures foldNdv ==> forall i :: 0 <= i < |ds| ==> r.numDVs >= ds[i].numDVs
    ensures foldNdv ==> exists i :: 0 <= i < |ds| && r.numDVs == ds[i].numDVs
    ensures !foldNdv ==> r.numDVs == ds[0].numDVs
    ensures r.bitVectors == ds[0].bitVectors
  {
    if |ds| == 1 then ds[0]
    else
      var prefix := MergeAll(ds[..|ds| - 1], foldNdv);
      assert ds[..|ds| - 1][0] == ds[0];
      MergeInto(prefix, ds[|ds| - 1], foldNdv)
  }

  /** Statistics of each contributor, in order. */
  function StatsOf(cs: seq<Contributor>): seq<DecimalStats> {
    seq(|cs|, i requires 0 <= i < |cs| => cs[i].stats)
  }

  lemma StatsOfSnoc(cs: seq<Contributor>, c: Contributor)
    ensures StatsOf(cs + [c]) == StatsOf(cs) + [c.stats]
  {
  }

  /** Statistics of each indexed partition, in order. */
  function DataOf(xs: seq<Indexed>): seq<DecimalStats> {
    seq(|xs|, i requires 0 <= i < |xs| => xs[i].data)
  }

  /** With non-negative NDVs, the largest NDV never exceeds their sum. */
  lemma {:induction false} MaxNdvAtMostSum(ds: seq<DecimalStats>)
    requires forall i :: 0 <= i < |ds| ==> ds[i].numDVs >= 0
    ensures MaxNdv(ds) <= SumNdv(ds)
  {
    if |ds| > 0 {
      MaxNdvAtMostSum(ds[..|ds| - 1]);
      SumNdvNonNegative(ds[..|ds| - 1]);
    }
  }

  lemma {:induction false} SumNdvNonNegative(ds: seq<DecimalStats>)
    requires forall i :: 0 <= i < |ds| ==> ds[i].numDVs >= 0
    ensures SumNdv(ds) >= 0
  {
    if |ds| > 0 {
      SumNdvNonNegative(ds[..|ds| - 1]);
    }
  }

  /** Sums over a concatenation split into the sums of the parts. */
  lemma {:induction false} SumNullsAppend(a: seq<DecimalStats>, b: seq<DecimalStats>)
    ensures SumNulls(a + b) == SumNulls(a) + SumNulls(b)
    decreases |b|
  {
    if |b| == 0 {
      assert a + b == a;
    } else {
      assert (a + b)[..|a + b| - 1] == a + b[..|b| - 1];
      SumNullsAppend(a, b[..|b| - 1]);
    }
  }
}
