/** `aggregate`: the table-level statistics of a decimal column from the
    statistics of the partitions that reported them. After the mergeability
    scan, either every partition reported (or fewer than two did) and the
    records are merged exactly, or the missing partitions are accounted for
    by extrapolating over the partitions' ordinals. */
module Aggregator {
  import opened Common
  import opened Sketch
  import opened ColumnStats
  import opened Runs
  import opened MergeScan
  import opened PseudoPartitions
  import opened Extrapolator

  /** The ordinal of each partition name; a name listed twice gets its last
      ordinal, as successive puts into a hash map give it. */
  function IndexMap(names: seq<string>): (m: map<string, int>)
    ensures m.Keys == set n | n in names
    ensures forall n :: n in m ==> 0 <= m[n] < |names| && names[m[n]] == n
    ensures forall n, j :: n in m && m[n] < j < |names| ==> names[j] != n
  {
    if |names| == 0 then map[]
    else IndexMap(names[..|names| - 1])[names[|names| - 1] := |names| - 1]
  }

  /** No extrapolation when every partition reported statistics, or fewer
      than two did. */
  predicate UsesDirectMerge(partNames: seq<string>, css: seq<ColumnStatistics>) {
    |css| == |partNames| || |css| < 2
  }

  predicate AllHaveObjects(css: seq<ColumnStatistics>) {
    forall i :: 0 <= i < |css| ==> |css[i].objs| > 0
  }

  /** Each partition's statistics, read from its first column object. */
  function FirstObjects(css: seq<ColumnStatistics>): (ds: seq<DecimalStats>)
    requires AllHaveObjects(css)
    ensures |ds| == |css|
    ensures forall i :: 0 <= i < |css| ==> ds[i] == DataAt(css, i)
  {
    seq(|css|, i requires 0 <= i < |css| && |css[i].objs| > 0 => DataAt(css, i))
  }

  /** The estimator the sketch-based paths fold into: an empty estimator of
      the kind the scan settled on, if it settled on one. */
  function EmptyEstimator<S>(ops: SketchOps<S>, scanned: Option<S>): (e: Option<S>)
    ensures e.Some? <==> scanned.Some?
  {
    if scanned.Some? then Some(ops.emptyLike(scanned.value)) else None
  }

  /** The density-mode NDV estimate of the direct path: the merged value
      range divided by the average density over all `numPartNames`
      partitions. With no partition names, or a non-finite density sum, the
      average is non-finite and the range divided by it casts to zero. */
  function DensityEstimate(range: real, densitySum: Double, numPartNames: nat): (est: int)
    ensures numPartNames == 0 || densitySum.NonFinite? ==> est == 0
    ensures numPartNames > 0 && densitySum.Finite? && densitySum.v != 0.0 ==>
      est == LongCast(range / (densitySum.v / numPartNames as real))
    ensures numPartNames > 0 && densitySum == Finite(0.0) ==> est == LongOfQuotient(range, 0.0)
  {
    LongOfDoubleQuotient(range, DivDouble(densitySum, numPartNames as real))
  }

  /** The direct path: the exact merge of all records. The NDV is, in order
      of precedence, the estimate of all sketches merged into `sketch`; the
      density estimate clamped between the largest NDV (floored at 0) and the
      NDV sum; or the largest NDV. */
  function DirectMerge<S>(ops: SketchOps<S>, useDensity: bool, numPartNames: nat,
                          ds: seq<DecimalStats>, sketch: Option<S>): (r: DecimalStats)
    requires |ds| > 0
    ensures forall i :: 0 <= i < |ds| ==> r.low <= ds[i].low && r.high >= ds[i].high
    ensures exists i :: 0 <= i < |ds| && r.low == ds[i].low
    ensures exists i :: 0 <= i < |ds| && r.high == ds[i].high
    ensures r.numNulls == SumNulls(ds)
    ensures r.bitVectors == ds[0].bitVectors
    ensures sketch.Some? ==> r.numDVs == ops.estimate(SketchFold(ops, sketch.value, AllBits(ds)))
    ensures sketch.None? && useDensity ==>
      ClampedTo(r.numDVs, DensityEstimate(r.high - r.low, SumDensity(ds), numPartNames), MaxNdv(ds), SumNdv(ds))
    ensures sketch.None? && useDensity && MaxNdv(ds) <= SumNdv(ds) ==>
      MaxNdv(ds) <= r.numDVs <= SumNdv(ds)
    ensures sketch.None? && !useDensity ==>
      (forall i :: 0 <= i < |ds| ==> r.numDVs >= ds[i].numDVs) &&
      (exists i :: 0 <= i < |ds| && r.numDVs == ds[i].numDVs)
  {
    var m := MergeAll(ds, true);
    var ndv :=
      if sketch.Some? then ops.estimate(SketchFold(ops, sketch.value, AllBits(ds)))
      else if useDensity then
        Clamp(DensityEstimate(m.high - m.low, SumDensity(ds), numPartNames), MaxNdv(ds), SumNdv(ds))
      else m.numDVs;
    m.(numDVs := ndv)
  }

  /** Every reporting partition placed at its ordinal among all partitions. */
  function Placed(partNames: seq<string>, css: seq<ColumnStatistics>, ds: seq<DecimalStats>): (xs: seq<Indexed>)
    requires |ds| == |css|
    requires forall i :: 0 <= i < |css| ==> css[i].partName in partNames
    ensures |xs| == |css|
    ensures forall i :: 0 <= i < |css| ==>
      && xs[i].name == css[i].partName && xs[i].data == ds[i]
      && 0 <= xs[i].index < |partNames| && partNames[xs[i].index] == css[i].partName
  {
    var idx := IndexMap(partNames);
    seq(|css|, i requires 0 <= i < |css| => Indexed(css[i].partName, idx[css[i].partName], ds[i]))
  }

  /** The pseudo-partitions of a non-empty input exist, no more of them
      than partitions, and their NDVs are sketch estimates. */
  lemma PseudoContributorsShape<S(!new)>(ops: SketchOps<S>, s0: S, xs: seq<Indexed>)
    requires |xs| > 0
    ensures |PseudoContributors(ops, s0, xs)| == |SplitRuns(xs)|
    ensures 0 < |PseudoContributors(ops, s0, xs)| <= |xs|
    ensures var runs := SplitRuns(xs);
      forall i :: 0 <= i < |runs| ==>
        PseudoContributors(ops, s0, xs)[i].stats.numDVs == ops.estimate(FinalSketch(ops, s0, runs[..i + 1]))
  {
    PseudoContributorsMatchRuns(ops, s0, xs);
    var runs := SplitRuns(xs);
    forall i | 0 <= i < |runs|
      ensures RunContributors(ops, s0, runs)[i].stats.numDVs == ops.estimate(FinalSketch(ops, s0, runs[..i + 1]))
    {
      RunContributorAt(ops, s0, runs, i);
    }
  }

  /** The contributors of the extrapolation path: the pseudo-partitions
      when sketches are usable, every partition at its ordinal otherwise. */
  function ContributorsOf<S>(ops: SketchOps<S>, xs: seq<Indexed>, sketch: Option<S>): seq<Contributor> {
    if sketch.Some? then PseudoContributors(ops, sketch.value, xs) else PlainContributors(xs)
  }

  /** There is at least one contributor, and no more than partitions. */
  lemma ContributorsShape<S(!new)>(ops: SketchOps<S>, xs: seq<Indexed>, sketch: Option<S>)
    requires |xs| > 0
    ensures 0 < |ContributorsOf(ops, xs, sketch)| <= |xs|
  {
    if sketch.Some? {
      PseudoContributorsShape(ops, sketch.value, xs);
    }
  }

  /** The average density of the contributors (0 when densities are not
      used): non-finite exactly when densities are used and some
      contributor's NDV is zero. */
  function DensityAverage(useDensity: bool, cs: seq<Contributor>): (r: Double)
    requires |cs| > 0
    ensures r.Finite? <==> !useDensity || forall i :: 0 <= i < |cs| ==> cs[i].stats.numDVs != 0
    ensures r.Finite? ==> r.v * |cs| as real == (if useDensity then SumDensity(StatsOf(cs)).v else 0.0)
  {
    assert forall i :: 0 <= i < |cs| ==> StatsOf(cs)[i] == cs[i].stats;
    DivDouble(if useDensity then SumDensity(StatsOf(cs)) else Finite(0.0), |cs| as real)
  }

  /** A record the extrapolation loops cannot place: it has no column
      object to read, or its name has no ordinal. */
  predicate Unplaceable(partNames: seq<string>, c: ColumnStatistics) {
    |c.objs| == 0 || c.partName !in partNames
  }

  /** The error the extrapolation loops raise on an unplaceable record: the
      object is read before the name is looked up. */
  function UnplaceableError(c: ColumnStatistics): AggregateError {
    if |c.objs| == 0 then NoStatsObject else UnknownPartition
  }

  /** The first record the extrapolation loops cannot place. */
  function FirstUnplaceable(partNames: seq<string>, css: seq<ColumnStatistics>): (k: Option<nat>)
    ensures k.None? <==> forall i :: 0 <= i < |css| ==> !Unplaceable(partNames, css[i])
    ensures k.Some? ==> k.value < |css| && Unplaceable(partNames, css[k.value])
    ensures k.Some? ==> forall i :: 0 <= i < k.value ==> !Unplaceable(partNames, css[i])
    decreases |css|
  {
    if |css| == 0 then None
    else if Unplaceable(partNames, css[0]) then Some(0)
    else
      var k := FirstUnplaceable(partNames, css[1..]);
      assert forall i :: 0 <= i < |css[1..]| ==> css[1..][i] == css[i + 1];
      if k.None? then None else Some(k.value + 1)
  }

  /** The extrapolation path. Its loops visit the records in order, each
      reading the column object and then looking up the ordinal, so the
      first record lacking either decides the error. */
  function ExtrapolationPath<S(!new)>(ops: SketchOps<S>, useDensity: bool, partNames: seq<string>,
                                       css: seq<ColumnStatistics>, sketch: Option<S>): (r: Result<DecimalStats, AggregateError>)
    requires |css| > 0
    ensures r.Failure? <==> exists i :: 0 <= i < |css| && Unplaceable(partNames, css[i])
    ensures r.Failure? ==> exists k :: (&& 0 <= k < |css| && Unplaceable(partNames, css[k])
                                        && (forall i :: 0 <= i < k ==> !Unplaceable(partNames, css[i]))
                                        && r.error == UnplaceableError(css[k]))
  {
    var bad := FirstUnplaceable(partNames, css);
    if bad.Some? then Failure(UnplaceableError(css[bad.value]))
    else
      var ds := FirstObjects(css);
      var xs := Placed(partNames, css, ds);
      var cs := ContributorsOf(ops, xs, sketch);
      ContributorsShape(ops, xs, sketch);
      Success(Extrapolate(useDensity, |partNames|, |css|, cs, DensityAverage(useDensity, cs)))
  }

  /** The aggregated statistics object of column `colName`, as the source
      computes it. */
  function Aggregate<S(!new)>(ops: SketchOps<S>, useDensity: bool, colName: string,
                              partNames: seq<string>, css: seq<ColumnStatistics>): (r: Result<ColumnStatisticsObj, AggregateError>)
    ensures r.Success? ==>
      && |css| > 0 && |css[0].objs| > 0
      && r.value.colName == colName && r.value.colType == css[0].objs[0].colType
    ensures |css| == 0 ==> r == Failure(NoPartitionStats)
  {
    if |css| == 0 then Failure(NoPartitionStats)
    else
      var scanned :- ScanSketches(ops, css, None);
      var sketch := EmptyEstimator(ops, scanned);
      var data :-
        if !UsesDirectMerge(partNames, css) then ExtrapolationPath(ops, useDensity, partNames, css, sketch)
        else if AllHaveObjects(css) then Success(DirectMerge(ops, useDensity, |partNames|, FirstObjects(css), sketch))
        else Failure(NoStatsObject);
      assert AllHaveObjects(css);
      Success(ColumnStatisticsObj(colName, css[0].objs[0].colType, data))
  }

  /** The first partition that does not carry exactly one column object. */
  function FirstMalformed(css: seq<ColumnStatistics>): (k: Option<nat>)
    ensures k.None? <==> forall i :: 0 <= i < |css| ==> |css[i].objs| == 1
    ensures k.Some? ==> k.value < |css| && |css[k.value].objs| != 1
    ensures k.Some? ==> forall i :: 0 <= i < k.value ==> |css[i].objs| == 1
    decreases |css|
  {
    if |css| == 0 then None
    else if |css[0].objs| != 1 then Some(0)
    else
      var k := FirstMalformed(css[1..]);
      assert forall i :: 0 <= i < |css[1..]| ==> css[1..][i] == css[i + 1];
      if k.None? then None else Some(k.value + 1)
  }

  /** `aggregate` with the object-count check applied to every partition
      before anything else, as its error message says it should be. */
  function AggregateValidated<S(!new)>(ops: SketchOps<S>, useDensity: bool, colName: string,
                                       partNames: seq<string>, css: seq<ColumnStatistics>): (r: Result<ColumnStatisticsObj, AggregateError>)
    ensures r.Success? ==> forall i :: 0 <= i < |css| ==> |css[i].objs| == 1
  {
    var bad := FirstMalformed(css);
    if bad.Some? then Failure(MalformedStats(|css[bad.value].objs|))
    else Aggregate(ops, useDensity, colName, partNames, css)
  }
}
