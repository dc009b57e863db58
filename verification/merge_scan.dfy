/** The mergeability scan at the start of `aggregate`: one pass over the
    partitions' statistics that checks each carries exactly one column object
    and decides whether sketch-based NDV estimation is usable. The pass stops
    at the first partition without a sketch, or whose sketch cannot merge with
    the FIRST partition's sketch (later sketches are only ever compared with
    the first one). */
module MergeScan {
  import opened Common
  import opened ColumnStats
  import opened Sketch

  datatype AggregateError =
    | MalformedStats(found: nat)   // a scanned partition does not carry exactly one column object
    | NoStatsObject                // a partition past the end of the scan carries no column object
    | NoPartitionStats             // no partition reported statistics
    | UnknownPartition             // on the extrapolation path, a reporting partition is not among the partition names

  /** The scan, continuing with the estimator adopted from the first
      partition (`first`). It yields that estimator when sketch-based
      estimation stays usable and `None` when it is abandoned. */
  function ScanSketches<S>(ops: SketchOps<S>, css: seq<ColumnStatistics>, first: Option<S>): (r: Result<Option<S>, AggregateError>)
    ensures r.Failure? ==> exists i :: 0 <= i < |css| && |css[i].objs| != 1 && r.error == MalformedStats(|css[i].objs|)
    ensures r.Success? && r.value.Some? ==> |css| == 0 || first.None? || r.value == first
    decreases |css|
  {
    if |css| == 0 then Success(first)
    else if |css[0].objs| != 1 then Failure(MalformedStats(|css[0].objs|))
    else
      var d := css[0].objs[0].data;
      if !HasBitVectors(d) then Success(None)
      else
        var e := ops.decode(BitsOf(d));
        if first.None? then ScanSketches(ops, css[1..], Some(e))
        else if ops.canMerge(first.value, e) then ScanSketches(ops, css[1..], first)
        else Success(None)
  }

  /** The partition's single column object's statistics. */
  function DataAt(css: seq<ColumnStatistics>, i: nat): DecimalStats
    requires i < |css| && |css[i].objs| > 0
  {
    css[i].objs[0].data
  }

  /** Partition `i` passes the scan against the estimator `f`: one object,
      a non-empty sketch, and a sketch that can merge with `f`. */
  ghost predicate Passes<S>(ops: SketchOps<S>, css: seq<ColumnStatistics>, i: nat, f: S)
    requires i < |css|
  {
    |css[i].objs| == 1 && HasBitVectors(DataAt(css, i)) && ops.canMerge(f, ops.decode(BitsOf(DataAt(css, i))))
  }

  /** The estimator of the first partition's sketch. */
  function FirstSketch<S>(ops: SketchOps<S>, css: seq<ColumnStatistics>): S
    requires |css| > 0 && |css[0].objs| > 0
  {
    ops.decode(BitsOf(DataAt(css, 0)))
  }

  /** Sketch-based estimation is usable: every partition has exactly one
      object and a non-empty sketch, and every later sketch can merge with
      the first one. */
  ghost predicate SketchesUsable<S>(ops: SketchOps<S>, css: seq<ColumnStatistics>) {
    && |css| > 0
    && (forall i :: 0 <= i < |css| ==> |css[i].objs| == 1)
    && (forall i :: 0 <= i < |css| ==> HasBitVectors(DataAt(css, i)))
    && (forall i :: 0 < i < |css| ==> ops.canMerge(FirstSketch(ops, css), ops.decode(BitsOf(DataAt(css, i)))))
  }

  /** Continuing with an adopted estimator `f`, the scan keeps it exactly when
      every remaining partition passes against `f`. */
  lemma {:induction false} ScanKeepsFirstIff<S>(ops: SketchOps<S>, css: seq<ColumnStatistics>, f: S)
    ensures ScanSketches(ops, css, Some(f)) == Success(Some(f)) <==>
      forall i :: 0 <= i < |css| ==> Passes(ops, css, i, f)
    decreases |css|
  {
    if |css| > 0 {
      ScanKeepsFirstIff(ops, css[1..], f);
      if |css[0].objs| == 1 && HasBitVectors(DataAt(css, 0)) && ops.canMerge(f, ops.decode(BitsOf(DataAt(css, 0)))) {
        assert forall i :: 0 <= i < |css[1..]| ==> (Passes(ops, css[1..], i, f) <==> Passes(ops, css, i + 1, f));
        if forall i :: 0 <= i < |css[1..]| ==> Passes(ops, css[1..], i, f) {
          forall i | 0 <= i < |css|
            ensures Passes(ops, css, i, f)
          {
            if i > 0 {
              assert Passes(ops, css[1..], i - 1, f);
            }
          }
        }
      } else {
        assert !Passes(ops, css, 0, f);
      }
    }
  }

  /** The scan from the start yields the first partition's estimator exactly
      when sketch-based estimation is usable, and `None` otherwise (when it
      does not fail). */
  lemma ScanUsableIff<S>(ops: SketchOps<S>, css: seq<ColumnStatistics>)
    requires |css| > 0
    ensures |css[0].objs| > 0 ==>
      (ScanSketches(ops, css, None) == Success(Some(FirstSketch(ops, css))) <==> SketchesUsable(ops, css))
    ensures ScanSketches(ops, css, None).Success? && !SketchesUsable(ops, css) ==>
      ScanSketches(ops, css, None) == Success(None)
  {
    if |css[0].objs| == 1 && HasBitVectors(DataAt(css, 0)) {
      var f := FirstSketch(ops, css);
      ScanKeepsFirstIff(ops, css[1..], f);
      ScanResultShape(ops, css[1..], f);
      assert forall i :: 0 <= i < |css[1..]| ==> (Passes(ops, css[1..], i, f) <==> Passes(ops, css, i + 1, f));
      if SketchesUsable(ops, css) {
        forall i | 0 <= i < |css[1..]|
          ensures Passes(ops, css[1..], i, f)
        {
          assert Passes(ops, css, i + 1, f);
        }
      }
      if ScanSketches(ops, css, None) == Success(Some(f)) {
        forall i | 0 < i < |css|
          ensures |css[i].objs| == 1 && HasBitVectors(DataAt(css, i)) && ops.canMerge(f, ops.decode(BitsOf(DataAt(css, i))))
        {
          assert Passes(ops, css[1..], i - 1, f);
        }
      }
    }
  }

  /** Once an estimator is adopted, the scan ends with it, with `None`, or
      with a failure. */
  lemma {:induction false} ScanResultShape<S>(ops: SketchOps<S>, css: seq<ColumnStatistics>, f: S)
    ensures ScanSketches(ops, css, Some(f)).Success? ==>
      ScanSketches(ops, css, Some(f)).value in {None, Some(f)}
    decreases |css|
  {
    if |css| > 0 {
      ScanResultShape(ops, css[1..], f);
    }
  }

  /** When every partition carries exactly one column object, the scan
      never fails. */
  lemma {:induction false} ScanSucceedsOnWellFormed<S>(ops: SketchOps<S>, css: seq<ColumnStatistics>, first: Option<S>)
    requires forall i :: 0 <= i < |css| ==> |css[i].objs| == 1
    ensures ScanSketches(ops, css, first).Success?
    decreases |css|
  {
    if |css| > 0 {
      assert forall i :: 0 <= i < |css[1..]| ==> css[1..][i] == css[i + 1];
      ScanSucceedsOnWellFormed(ops, css[1..], Some(ops.decode(BitsOf(DataAt(css, 0)))));
      ScanSucceedsOnWellFormed(ops, css[1..], first);
    }
  }

  /** A scan failure names the object count of a partition that does not
      carry exactly one object. */
  lemma {:induction false} ScanFailureNamesCount<S>(ops: SketchOps<S>, css: seq<ColumnStatistics>, first: Option<S>)
    requires ScanSketches(ops, css, first).Failure?
    ensures ScanSketches(ops, css, first).error.MalformedStats?
    ensures exists i :: 0 <= i < |css| && |css[i].objs| != 1
                        && ScanSketches(ops, css, first).error.found == |css[i].objs|
    decreases |css|
  {
    if |css[0].objs| == 1 {
      var d := css[0].objs[0].data;
      var e := ops.decode(BitsOf(d));
      var next := if first.None? then Some(e) else first;
      ScanFailureNamesCount(ops, css[1..], next);
      var i :| 0 <= i < |css[1..]| && |css[1..][i].objs| != 1
               && ScanSketches(ops, css[1..], next).error.found == |css[1..][i].objs|;
      assert css[1..][i] == css[i + 1];
    }
  }

  /** A partition that the scan reaches — all earlier partitions carry one
      object and a sketch mergeable with the first — makes the scan fail when
      it does not carry exactly one object. */
  lemma {:induction false} ScanRejectsReachedMalformed<S>(ops: SketchOps<S>, css: seq<ColumnStatistics>, j: nat)
    requires j < |css| && |css[j].objs| != 1
    requires forall i :: 0 <= i < j ==> |css[i].objs| == 1 && HasBitVectors(DataAt(css, i))
    requires forall i :: 0 < i < j ==> ops.canMerge(FirstSketch(ops, css), ops.decode(BitsOf(DataAt(css, i))))
    ensures ScanSketches(ops, css, None) == Failure(MalformedStats(|css[j].objs|))
  {
    if j > 0 {
      var f := FirstSketch(ops, css);
      ScanRejectsReachedFrom(ops, css[1..], j - 1, f);
    }
  }

  lemma {:induction false} ScanRejectsReachedFrom<S>(ops: SketchOps<S>, css: seq<ColumnStatistics>, j: nat, f: S)
    requires j < |css| && |css[j].objs| != 1
    requires forall i :: 0 <= i < j ==> Passes(ops, css, i, f)
    ensures ScanSketches(ops, css, Some(f)) == Failure(MalformedStats(|css[j].objs|))
    decreases j
  {
    if j > 0 {
      assert Passes(ops, css, 0, f);
      forall i | 0 <= i < j - 1
        ensures Passes(ops, css[1..], i, f)
      {
        assert Passes(ops, css, i + 1, f);
        assert css[1..][i] == css[i + 1];
      }
      ScanRejectsReachedFrom(ops, css[1..], j - 1, f);
    }
  }
}
