/** What `aggregate` promises: which inputs it rejects, how the direct path
    merges and chooses the NDV, that the sketch operations matter only when
    every partition carries a mergeable sketch, and how the extrapolation
    path scales and bounds what the partitions reported. */
module AggregatorProperties {
  import opened Common
  import opened Sketch
  import opened ColumnStats
  import opened Runs
  import opened MergeScan
  import opened PseudoPartitions
  import opened Sorting
  import opened Extrapolator
  import opened Aggregator

  // ---------------------------------------------------------------------
  // Rejected inputs
  // ---------------------------------------------------------------------

  /** With one object per partition, `aggregate` fails only on the
      extrapolation path, and only for a reporting partition whose name is
      not among the partition names. */
  lemma AggregateFailsOnlyOnUnknownName<S(!new)>(ops: SketchOps<S>, useDensity: bool, colName: string,
                                                 partNames: seq<string>, css: seq<ColumnStatistics>)
    requires |css| > 0 && forall i :: 0 <= i < |css| ==> |css[i].objs| == 1
    ensures var r := Aggregate(ops, useDensity, colName, partNames, css);
      r.Failure? <==> !UsesDirectMerge(partNames, css) && exists i :: 0 <= i < |css| && css[i].partName !in partNames
    ensures var r := Aggregate(ops, useDensity, colName, partNames, css);
      r.Failure? ==> r.error == UnknownPartition
  {
    ScanSucceedsOnWellFormed(ops, css, None);
  }

  /** A partition the scan reaches with a wrong object count makes
      `aggregate` fail with that count. */
  lemma AggregateRejectsReachedMalformed<S(!new)>(ops: SketchOps<S>, useDensity: bool, colName: string,
                                                  partNames: seq<string>, css: seq<ColumnStatistics>, j: nat)
    requires j < |css| && |css[j].objs| != 1
    requires forall i :: 0 <= i < j ==> |css[i].objs| == 1 && HasBitVectors(DataAt(css, i))
    requires forall i :: 0 < i < j ==> ops.canMerge(FirstSketch(ops, css), ops.decode(BitsOf(DataAt(css, i))))
    ensures Aggregate(ops, useDensity, colName, partNames, css) == Failure(MalformedStats(|css[j].objs|))
  {
    ScanRejectsReachedMalformed(ops, css, j);
  }

  /** Once the scan has passed, the direct path fails exactly when some
      record has no column object to read, and the extrapolation path fails
      exactly on a record without an object or without an ordinal, the first
      such record deciding which. */
  lemma AggregateErrorsAfterScan<S(!new)>(ops: SketchOps<S>, useDensity: bool, colName: string,
                                          partNames: seq<string>, css: seq<ColumnStatistics>)
    requires |css| > 0 && ScanSketches(ops, css, None).Success?
    ensures var r := Aggregate(ops, useDensity, colName, partNames, css);
      UsesDirectMerge(partNames, css) ==>
        (r.Failure? <==> exists i :: 0 <= i < |css| && |css[i].objs| == 0)
        && (r.Failure? ==> r.error == NoStatsObject)
    ensures var r := Aggregate(ops, useDensity, colName, partNames, css);
      !UsesDirectMerge(partNames, css) ==>
        (r.Failure? <==> exists i :: 0 <= i < |css| && Unplaceable(partNames, css[i]))
        && (r.Failure? ==> exists k :: (&& 0 <= k < |css| && Unplaceable(partNames, css[k])
                                        && (forall i :: 0 <= i < k ==> !Unplaceable(partNames, css[i]))
                                        && r.error == UnplaceableError(css[k])))
  {
  }

  /** The corrected entry point fails with an object count exactly when some
      partition does not carry one object, and then reports the first such
      partition's count; otherwise it is `aggregate`. */
  lemma AggregateValidatedRejectsMalformed<S(!new)>(ops: SketchOps<S>, useDensity: bool, colName: string,
                                                    partNames: seq<string>, css: seq<ColumnStatistics>)
    ensures var r := AggregateValidated(ops, useDensity, colName, partNames, css);
      (r.Failure? && r.error.MalformedStats?) <==> exists i :: 0 <= i < |css| && |css[i].objs| != 1
    ensures var r := AggregateValidated(ops, useDensity, colName, partNames, css);
      r.Failure? && r.error.MalformedStats? ==>
        exists k :: 0 <= k < |css| && |css[k].objs| != 1 && r.error.found == |css[k].objs|
          && forall i :: 0 <= i < k ==> |css[i].objs| == 1
    ensures (forall i :: 0 <= i < |css| ==> |css[i].objs| == 1) ==>
      AggregateValidated(ops, useDensity, colName, partNames, css) == Aggregate(ops, useDensity, colName, partNames, css)
  {
    if |css| > 0 && forall i :: 0 <= i < |css| ==> |css[i].objs| == 1 {
      AggregateFailsOnlyOnUnknownName(ops, useDensity, colName, partNames, css);
    }
  }

  /** As written, the count check covers only the partitions the scan
      reaches: after a partition without a sketch, a partition carrying two
      objects is accepted (its first object is used), where the corrected
      entry point rejects it. */
  lemma UncheckedMalformedAccepted()
    ensures var ops := SketchOps((b: string) => |b|, (a: int, b: int) => true, (a: int, b: int) => a + b,
                                 (a: int) => 1, (a: int) => 0);
            var d := DecimalStats(1.0, 2.0, 0, 1, None);
            var o := StatsObj("decimal(10,2)", d);
            var css := [ColumnStatistics("p=0", [o]), ColumnStatistics("p=1", [o, o])];
            && Aggregate(ops, false, "c", ["p=0", "p=1"], css).Success?
            && AggregateValidated(ops, false, "c", ["p=0", "p=1"], css) == Failure(MalformedStats(2))
  {
    var ops := SketchOps((b: string) => |b|, (a: int, b: int) => true, (a: int, b: int) => a + b,
                         (a: int) => 1, (a: int) => 0);
    var d := DecimalStats(1.0, 2.0, 0, 1, None);
    var o := StatsObj("decimal(10,2)", d);
    var css := [ColumnStatistics("p=0", [o]), ColumnStatistics("p=1", [o, o])];
    assert ScanSketches(ops, css, None) == Success(None);
    assert AllHaveObjects(css);
    assert FirstMalformed(css) == Some(1);
  }

  // ---------------------------------------------------------------------
  // The direct path
  // ---------------------------------------------------------------------

  /** When no extrapolation is needed, the result is the exact merge: the
      smallest low, the largest high and the total null count. */
  lemma AggregateDirectMerge<S(!new)>(ops: SketchOps<S>, useDensity: bool, colName: string,
                                      partNames: seq<string>, css: seq<ColumnStatistics>)
    requires |css| > 0 && forall i :: 0 <= i < |css| ==> |css[i].objs| == 1
    requires UsesDirectMerge(partNames, css)
    ensures var r := Aggregate(ops, useDensity, colName, partNames, css);
      && r.Success?
      && (forall i :: 0 <= i < |css| ==> r.value.data.low <= DataAt(css, i).low && r.value.data.high >= DataAt(css, i).high)
      && (exists i :: 0 <= i < |css| && r.value.data.low == DataAt(css, i).low)
      && (exists i :: 0 <= i < |css| && r.value.data.high == DataAt(css, i).high)
      && r.value.data.numNulls == SumNulls(FirstObjects(css))
  {
    ScanSucceedsOnWellFormed(ops, css, None);
  }

  /** The direct path's NDV when every partition carries a mergeable
      sketch: the estimate of all sketches merged into an empty copy of the
      first one. */
  lemma AggregateDirectSketchNdv<S(!new)>(ops: SketchOps<S>, useDensity: bool, colName: string,
                                          partNames: seq<string>, css: seq<ColumnStatistics>)
    requires |css| > 0 && forall i :: 0 <= i < |css| ==> |css[i].objs| == 1
    requires UsesDirectMerge(partNames, css)
    requires SketchesUsable(ops, css)
    ensures var r := Aggregate(ops, useDensity, colName, partNames, css);
      && r.Success?
      && r.value.data.numDVs == ops.estimate(SketchFold(ops, ops.emptyLike(FirstSketch(ops, css)), AllBits(FirstObjects(css))))
  {
    AggregateDirectWithEstimator(ops, useDensity, colName, partNames, css);
  }

  /** The direct path's NDV without usable sketches and outside density
      mode: the largest NDV of any partition. */
  lemma AggregateDirectPlainNdv<S(!new)>(ops: SketchOps<S>, colName: string,
                                         partNames: seq<string>, css: seq<ColumnStatistics>)
    requires |css| > 0 && forall i :: 0 <= i < |css| ==> |css[i].objs| == 1
    requires UsesDirectMerge(partNames, css)
    requires !SketchesUsable(ops, css)
    ensures var r := Aggregate(ops, false, colName, partNames, css);
      && r.Success?
      && (forall i :: 0 <= i < |css| ==> r.value.data.numDVs >= DataAt(css, i).numDVs)
      && exists i :: 0 <= i < |css| && r.value.data.numDVs == DataAt(css, i).numDVs
  {
    AggregateDirectWithEstimator(ops, false, colName, partNames, css);
    var d := DirectMerge(ops, false, |partNames|, FirstObjects(css), None);
    assert Aggregate(ops, false, colName, partNames, css).value.data == d;
  }

  /** The direct path's NDV without usable sketches in density mode: the
      aggregate holds the exact merge, whose NDV is the density estimate over
      the merged range, raised to the largest NDV and capped at the NDV sum,
      in that order; with no negative NDV it lies between the two. */
  lemma AggregateDirectDensityNdv<S(!new)>(ops: SketchOps<S>, colName: string,
                                           partNames: seq<string>, css: seq<ColumnStatistics>)
    requires |css| > 0 && forall i :: 0 <= i < |css| ==> |css[i].objs| == 1
    requires UsesDirectMerge(partNames, css)
    requires !SketchesUsable(ops, css)
    ensures var ds := FirstObjects(css);
            var d := DirectMerge(ops, true, |partNames|, ds, None);
      && Aggregate(ops, true, colName, partNames, css) == Success(ColumnStatisticsObj(colName, css[0].objs[0].colType, d))
      && ClampedTo(d.numDVs, DensityEstimate(d.high - d.low, SumDensity(ds), |partNames|), MaxNdv(ds), SumNdv(ds))
      && ((forall i :: 0 <= i < |ds| ==> ds[i].numDVs >= 0) ==> MaxNdv(ds) <= d.numDVs <= SumNdv(ds))
  {
    AggregateDirectWithEstimator(ops, true, colName, partNames, css);
    var ds := FirstObjects(css);
    if forall i :: 0 <= i < |ds| ==> ds[i].numDVs >= 0 {
      MaxNdvAtMostSum(ds);
    }
  }

  /** On the direct path with one object per record the scan succeeds, and
      the estimator handed to the merge is an empty copy of the first
      sketch exactly when every sketch is usable. */
  lemma AggregateDirectWithEstimator<S(!new)>(ops: SketchOps<S>, useDensity: bool, colName: string,
                                              partNames: seq<string>, css: seq<ColumnStatistics>)
    requires |css| > 0 && forall i :: 0 <= i < |css| ==> |css[i].objs| == 1
    requires UsesDirectMerge(partNames, css)
    ensures Aggregate(ops, useDensity, colName, partNames, css)
         == Success(ColumnStatisticsObj(colName, css[0].objs[0].colType,
              DirectMerge(ops, useDensity, |partNames|, FirstObjects(css),
                if SketchesUsable(ops, css) then Some(ops.emptyLike(FirstSketch(ops, css))) else None)))
  {
    ScanSucceedsOnWellFormed(ops, css, None);
    ScanUsableIff(ops, css);
    var scanned := ScanSketches(ops, css, None).value;
    assert AllHaveObjects(css);
    AggregateTakesDirect(ops, useDensity, colName, partNames, css, scanned);
  }

  /** On the direct path, a successful scan hands over to the exact merge. */
  lemma AggregateTakesDirect<S(!new)>(ops: SketchOps<S>, useDensity: bool, colName: string,
                                      partNames: seq<string>, css: seq<ColumnStatistics>, scanned: Option<S>)
    requires |css| > 0 && AllHaveObjects(css)
    requires UsesDirectMerge(partNames, css)
    requires ScanSketches(ops, css, None) == Success(scanned)
    ensures Aggregate(ops, useDensity, colName, partNames, css)
         == Success(ColumnStatisticsObj(colName, css[0].objs[0].colType,
              DirectMerge(ops, useDensity, |partNames|, FirstObjects(css), EmptyEstimator(ops, scanned))))
  {
  }

  /** The direct path divides the density sum by the number of partition
      names; whenever that path is taken this is the number of records, or
      the single record's NDV is returned whatever the divisor. */
  lemma DirectDivisorIsRecordCount<S>(ops: SketchOps<S>, useDensity: bool, partNames: seq<string>,
                                      ds: seq<DecimalStats>, sketch: Option<S>)
    requires |ds| > 0 && (|ds| == |partNames| || |ds| < 2)
    requires forall i :: 0 <= i < |ds| ==> ds[i].numDVs >= 0
    ensures DirectMerge(ops, useDensity, |partNames|, ds, sketch) == DirectMerge(ops, useDensity, |ds|, ds, sketch)
  {
    if |ds| == 1 {
      assert ds[..0] == [];
      assert MaxNdv(ds) == ds[0].numDVs && SumNdv(ds) == ds[0].numDVs;
    }
  }

  /** One partition without a sketch aggregates to its own statistics. */
  lemma SinglePartitionWithoutSketch<S(!new)>(ops: SketchOps<S>, useDensity: bool, colName: string,
                                              partNames: seq<string>, c: ColumnStatistics)
    requires |c.objs| == 1 && !HasBitVectors(c.objs[0].data)
    requires useDensity ==> c.objs[0].data.numDVs >= 0
    ensures Aggregate(ops, useDensity, colName, partNames, [c])
         == Success(ColumnStatisticsObj(colName, c.objs[0].colType, c.objs[0].data))
  {
    var d := c.objs[0].data;
    assert FirstObjects([c]) == [d];
    if useDensity {
      assert [d][..0] == [];
      assert MaxNdv([d]) == d.numDVs && SumNdv([d]) == d.numDVs;
    }
  }

  /** One partition with a sketch aggregates to its own statistics, with the
      estimate of its sketch merged into an empty one as the NDV. */
  lemma SinglePartitionWithSketch<S(!new)>(ops: SketchOps<S>, useDensity: bool, colName: string,
                                           partNames: seq<string>, c: ColumnStatistics)
    requires |c.objs| == 1 && HasBitVectors(c.objs[0].data)
    ensures var d := c.objs[0].data;
            var e := ops.decode(BitsOf(d));
      Aggregate(ops, useDensity, colName, partNames, [c])
        == Success(ColumnStatisticsObj(colName, c.objs[0].colType, d.(numDVs := ops.estimate(ops.merge(ops.emptyLike(e), e)))))
  {
    var d := c.objs[0].data;
    var e := ops.decode(BitsOf(d));
    assert [c][1..] == [];
    assert ScanSketches(ops, [c], None) == Success(Some(e));
    assert FirstObjects([c]) == [d];
    assert AllBits([d]) == [BitsOf(d)];
    assert [BitsOf(d)][..0] == [];
    assert SketchFold(ops, ops.emptyLike(e), [BitsOf(d)]) == ops.merge(ops.emptyLike(e), e);
  }

  /** Scanning consults only the decoding and the mergeability test. */
  lemma {:induction false} ScanUsesDecodeAndCanMerge<S>(ops: SketchOps<S>, ops2: SketchOps<S>,
                                                       css: seq<ColumnStatistics>, first: Option<S>)
    requires ops2.decode == ops.decode && ops2.canMerge == ops.canMerge
    ensures ScanSketches(ops, css, first) == ScanSketches(ops2, css, first)
    decreases |css|
  {
    if |css| > 0 && |css[0].objs| == 1 {
      var e := ops.decode(BitsOf(css[0].objs[0].data));
      ScanUsesDecodeAndCanMerge(ops, ops2, css[1..], Some(e));
      ScanUsesDecodeAndCanMerge(ops, ops2, css[1..], first);
    }
  }

  /** Unless every partition carries a sketch mergeable with the first, the
      result does not depend on how sketches merge, estimate or reset. */
  lemma SketchOpsUnusedWithoutUsableSketches<S(!new)>(ops: SketchOps<S>, ops2: SketchOps<S>, useDensity: bool,
                                                      colName: string, partNames: seq<string>, css: seq<ColumnStatistics>)
    requires ops2.decode == ops.decode && ops2.canMerge == ops.canMerge
    requires !SketchesUsable(ops, css)
    ensures Aggregate(ops, useDensity, colName, partNames, css) == Aggregate(ops2, useDensity, colName, partNames, css)
  {
    if |css| > 0 {
      ScanUsesDecodeAndCanMerge(ops, ops2, css, None);
      ScanUsableIff(ops, css);
    }
  }

  // ---------------------------------------------------------------------
  // The extrapolation path
  // ---------------------------------------------------------------------

  lemma PlacedData(partNames: seq<string>, css: seq<ColumnStatistics>, ds: seq<DecimalStats>)
    requires |ds| == |css|
    requires forall i :: 0 <= i < |css| ==> css[i].partName in partNames
    ensures DataOf(Placed(partNames, css, ds)) == ds
  {
  }

  /** The contributors carry, together, exactly the partitions' nulls. */
  lemma ContributorsKeepNulls<S>(ops: SketchOps<S>, xs: seq<Indexed>, sketch: Option<S>)
    ensures SumNulls(StatsOf(ContributorsOf(ops, xs, sketch))) == SumNulls(DataOf(xs))
  {
    if sketch.Some? {
      PseudoContributorsKeepNulls(ops, sketch.value, xs);
    } else {
      assert StatsOf(PlainContributors(xs)) == DataOf(xs);
    }
  }

  /** With every ordinal below `numParts`, every contributor's position lies
      in `[0, numParts]`. */
  lemma ContributorsPositionsWithin<S>(ops: SketchOps<S>, xs: seq<Indexed>, sketch: Option<S>, numParts: int)
    requires forall i :: 0 <= i < |xs| ==> 0 <= xs[i].index < numParts
    ensures PositionsWithin(ContributorsOf(ops, xs, sketch), numParts)
  {
    if sketch.Some? {
      PseudoPositionsAreMidpoints(ops, sketch.value, xs);
    }
  }

  /** Every partition's low is at least some contributor's low. */
  lemma ContributorsCoverLows<S>(ops: SketchOps<S>, xs: seq<Indexed>, sketch: Option<S>)
    ensures forall i :: 0 <= i < |xs| ==> LowCovered(ContributorsOf(ops, xs, sketch), xs[i].data)
  {
    if sketch.Some? {
      PseudoContributorsCoverLows(ops, sketch.value, xs);
    } else {
      var cs := PlainContributors(xs);
      forall i | 0 <= i < |xs|
        ensures LowCovered(cs, xs[i].data)
      {
        assert cs[i].stats.low <= xs[i].data.low;
      }
    }
  }

  /** On the extrapolation path, with one object per partition and every
      reporting partition named, `aggregate` extrapolates from the
      contributors. */
  lemma ExtrapolationUnfolds<S(!new)>(ops: SketchOps<S>, useDensity: bool, colName: string,
                                      partNames: seq<string>, css: seq<ColumnStatistics>, scanned: Option<S>)
    requires forall i :: 0 <= i < |css| ==> |css[i].objs| == 1 && css[i].partName in partNames
    requires !UsesDirectMerge(partNames, css)
    requires ScanSketches(ops, css, None) == Success(scanned)
    ensures var cs := ContributorsOf(ops, Placed(partNames, css, FirstObjects(css)), EmptyEstimator(ops, scanned));
      && |cs| > 0
      && Aggregate(ops, useDensity, colName, partNames, css)
         == Success(ColumnStatisticsObj(colName, css[0].objs[0].colType,
                      Extrapolate(useDensity, |partNames|, |css|, cs, DensityAverage(useDensity, cs))))
  {
    assert AllHaveObjects(css);
    PathSucceeds(ops, useDensity, partNames, css, EmptyEstimator(ops, scanned));
    AggregateTakesPath(ops, useDensity, colName, partNames, css, scanned);
  }

  /** With every reporting partition named, the extrapolation path succeeds
      with the extrapolation of the contributors. */
  lemma PathSucceeds<S(!new)>(ops: SketchOps<S>, useDensity: bool, partNames: seq<string>,
                              css: seq<ColumnStatistics>, sketch: Option<S>)
    requires |css| > 0 && AllHaveObjects(css)
    requires forall i :: 0 <= i < |css| ==> css[i].partName in partNames
    ensures var cs := ContributorsOf(ops, Placed(partNames, css, FirstObjects(css)), sketch);
      && |cs| > 0
      && ExtrapolationPath(ops, useDensity, partNames, css, sketch)
         == Success(Extrapolate(useDensity, |partNames|, |css|, cs, DensityAverage(useDensity, cs)))
  {
    ContributorsShape(ops, Placed(partNames, css, FirstObjects(css)), sketch);
  }

  /** Off the direct path, a successful scan hands over to the extrapolation
      path's result. */
  lemma AggregateTakesPath<S(!new)>(ops: SketchOps<S>, useDensity: bool, colName: string,
                                    partNames: seq<string>, css: seq<ColumnStatistics>, scanned: Option<S>)
    requires |css| > 0 && AllHaveObjects(css)
    requires !UsesDirectMerge(partNames, css)
    requires ScanSketches(ops, css, None) == Success(scanned)
    requires ExtrapolationPath(ops, useDensity, partNames, css, EmptyEstimator(ops, scanned)).Success?
    ensures Aggregate(ops, useDensity, colName, partNames, css)
         == Success(ColumnStatisticsObj(colName, css[0].objs[0].colType,
              ExtrapolationPath(ops, useDensity, partNames, css, EmptyEstimator(ops, scanned)).value))
  {
  }

  /** With extrapolation, the null count is the reported total scaled by
      the ratio of all partitions to reporting partitions, rounded down. */
  lemma ExtrapolatedNullsScaled<S(!new)>(ops: SketchOps<S>, useDensity: bool, colName: string,
                                         partNames: seq<string>, css: seq<ColumnStatistics>)
    requires forall i :: 0 <= i < |css| ==> |css[i].objs| == 1 && css[i].partName in partNames
    requires !UsesDirectMerge(partNames, css)
    requires SumNulls(FirstObjects(css)) >= 0
    ensures var r := Aggregate(ops, useDensity, colName, partNames, css);
            var total := SumNulls(FirstObjects(css));
      r.Success? && ScaledDown(r.value.data.numNulls, total, |partNames|, |css|)
  {
    ScanSucceedsOnWellFormed(ops, css, None);
    var scanned := ScanSketches(ops, css, None).value;
    ExtrapolationUnfolds(ops, useDensity, colName, partNames, css, scanned);
    var ds := FirstObjects(css);
    var xs := Placed(partNames, css, ds);
    var cs := ContributorsOf(ops, xs, EmptyEstimator(ops, scanned));
    ContributorsKeepNulls(ops, xs, EmptyEstimator(ops, scanned));
    PlacedData(partNames, css, ds);
    ScaledNulls(useDensity, |partNames|, |css|, cs, DensityAverage(useDensity, cs), SumNulls(ds));
  }

  lemma ScaledNulls(useDensity: bool, numParts: int, numPartsWithStats: int, cs: seq<Contributor>,
                    densityAvg: Double, total: int)
    requires |cs| > 0 && numPartsWithStats > 0 && numParts >= 0
    requires SumNulls(StatsOf(cs)) == total >= 0
    ensures ScaledDown(Extrapolate(useDensity, numParts, numPartsWithStats, cs, densityAvg).numNulls,
                       total, numParts, numPartsWithStats)
  {
  }

  /** With extrapolation, the low value is at most every reported low. */
  lemma ExtrapolatedLowBelowEveryPartition<S(!new)>(ops: SketchOps<S>, useDensity: bool, colName: string,
                                                    partNames: seq<string>, css: seq<ColumnStatistics>)
    requires forall i :: 0 <= i < |css| ==> |css[i].objs| == 1 && css[i].partName in partNames
    requires !UsesDirectMerge(partNames, css)
    ensures var r := Aggregate(ops, useDensity, colName, partNames, css);
      r.Success? && forall i :: 0 <= i < |css| ==> r.value.data.low <= DataAt(css, i).low
  {
    ScanSucceedsOnWellFormed(ops, css, None);
    var scanned := ScanSketches(ops, css, None).value;
    ExtrapolationUnfolds(ops, useDensity, colName, partNames, css, scanned);
    var ds := FirstObjects(css);
    var xs := Placed(partNames, css, ds);
    var sketch := EmptyEstimator(ops, scanned);
    var cs := ContributorsOf(ops, xs, sketch);
    var densityAvg := DensityAverage(useDensity, cs);
    ContributorsPositionsWithin(ops, xs, sketch, |partNames|);
    ContributorsCoverLows(ops, xs, sketch);
    forall i | 0 <= i < |css|
      ensures Extrapolate(useDensity, |partNames|, |css|, cs, densityAvg).low <= DataAt(css, i).low
    {
      assert LowCovered(cs, xs[i].data);
    }
  }

  /** Without usable sketches, and with distinct reporting partitions, the
      extrapolated high value is at least every reported high. */
  lemma ExtrapolatedHighAboveEveryPartition<S(!new)>(ops: SketchOps<S>, useDensity: bool, colName: string,
                                                     partNames: seq<string>, css: seq<ColumnStatistics>)
    requires forall i :: 0 <= i < |css| ==> |css[i].objs| == 1 && css[i].partName in partNames
    requires forall i, j :: 0 <= i < j < |css| ==> css[i].partName != css[j].partName
    requires !UsesDirectMerge(partNames, css) && !SketchesUsable(ops, css)
    ensures var r := Aggregate(ops, useDensity, colName, partNames, css);
      r.Success? && forall i :: 0 <= i < |css| ==> r.value.data.high >= DataAt(css, i).high
  {
    ScanSucceedsOnWellFormed(ops, css, None);
    ScanUsableIff(ops, css);
    ExtrapolationUnfolds(ops, useDensity, colName, partNames, css, None);
    var cs := PlainContributors(Placed(partNames, css, FirstObjects(css)));
    PlainHighAboveAll(useDensity, partNames, css, DensityAverage(useDensity, cs));
  }

  /** Extrapolating from every partition at its own, distinct ordinal keeps
      the high value at least every reported high. */
  lemma PlainHighAboveAll(useDensity: bool, partNames: seq<string>, css: seq<ColumnStatistics>, densityAvg: Double)
    requires |css| > 0 && forall i :: 0 <= i < |css| ==> |css[i].objs| == 1 && css[i].partName in partNames
    requires forall i, j :: 0 <= i < j < |css| ==> css[i].partName != css[j].partName
    ensures var cs := PlainContributors(Placed(partNames, css, FirstObjects(css)));
      forall i :: 0 <= i < |css| ==> Extrapolate(useDensity, |partNames|, |css|, cs, densityAvg).high >= DataAt(css, i).high
  {
    var ds := FirstObjects(css);
    var xs := Placed(partNames, css, ds);
    var cs := PlainContributors(xs);
    PlainPositionsDistinct(partNames, css, ds);
    assert PositionsWithin(cs, |partNames|);
  }

  /** Distinct partition names sit at distinct ordinals. */
  lemma PlainPositionsDistinct(partNames: seq<string>, css: seq<ColumnStatistics>, ds: seq<DecimalStats>)
    requires |ds| == |css|
    requires forall i :: 0 <= i < |css| ==> css[i].partName in partNames
    requires forall i, j :: 0 <= i < j < |css| ==> css[i].partName != css[j].partName
    ensures DistinctPositions(PlainContributors(Placed(partNames, css, ds)))
  {
    var xs := Placed(partNames, css, ds);
    var cs := PlainContributors(xs);
    forall i, j | 0 <= i < |cs| && 0 <= j < |cs| && i != j
      ensures cs[i].pos != cs[j].pos
    {
      assert partNames[xs[i].index] != partNames[xs[j].index];
    }
  }
}
