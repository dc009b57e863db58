/** The extrapolation path's contributors. Without usable sketches every
    partition with statistics contributes itself, placed at its ordinal. With
    usable sketches, each maximal run of partitions with consecutive ordinals
    is merged into one pseudo-partition: its name is the concatenation of the
    run's names, its position the mean of their ordinals, its statistics the
    exact merge of theirs, and its NDV the estimate of the run's merged
    sketches. The running estimator is reset to an empty one of the same
    kind at the end of each run.

    The source also accumulates the contributors' density sum inside these
    loops; since that sum is taken over the emitted contributors in emission
    order, the model computes it afterwards from the contributors. */
module PseudoPartitions {
  import opened Common
  import opened Sketch
  import opened ColumnStats
  import opened Runs

  /** Every partition as its own contributor, at its ordinal. */
  function PlainContributors(xs: seq<Indexed>): (cs: seq<Contributor>)
    ensures |cs| == |xs|
    ensures forall i :: 0 <= i < |xs| ==>
      cs[i].key == xs[i].name && cs[i].pos == xs[i].index as real && cs[i].stats == xs[i].data
  {
    seq(|xs|, i requires 0 <= i < |xs| => Contributor(xs[i].name, xs[i].index as real, xs[i].data))
  }

  // ---------------------------------------------------------------------
  // The loop, as the source writes it
  // ---------------------------------------------------------------------

  /** The state of the pseudo-partition loop. */
  datatype RunState<S> = RunState(
    done: seq<Contributor>,        // pseudo-partitions emitted so far
    name: string,                  // concatenated names of the open run
    indexSum: real,                // sum of the open run's ordinals
    length: nat,                   // number of partitions in the open run
    curIndex: int,                 // the ordinal that would extend the open run
    agg: Option<DecimalStats>,     // exact merge of the open run's statistics
    sketch: S)                     // running estimator of the open run

  function InitialState<S>(s0: S): RunState<S> {
    RunState([], "", 0.0, 0, -1, None, s0)
  }

  /** Close the open run: emit it as a pseudo-partition carrying the running
      estimate as its NDV, then reset the run and the estimator. */
  function Emit<S>(ops: SketchOps<S>, st: RunState<S>): (r: RunState<S>)
    requires st.length > 0 && st.agg.Some?
    ensures |r.done| == |st.done| + 1 && r.done[..|st.done|] == st.done
    ensures Last(r.done).key == st.name && Last(r.done).pos * (st.length as real) == st.indexSum
    ensures Last(r.done).stats == st.agg.value.(numDVs := ops.estimate(st.sketch))
    ensures r.length == 0 && r.name == "" && r.indexSum == 0.0 && r.sketch == ops.emptyLike(st.sketch)
  {
    var c := Contributor(st.name, st.indexSum / (st.length as real),
                         st.agg.value.(numDVs := ops.estimate(st.sketch)));
    st.(done := st.done + [c], name := "", indexSum := 0.0, length := 0,
        sketch := ops.emptyLike(st.sketch))
  }

  /** One iteration: a partition whose ordinal does not extend the open run
      closes it (when it is not empty); the partition is then added to the
      (possibly new) run. */
  function RunStep<S>(ops: SketchOps<S>, st: RunState<S>, x: Indexed): (r: RunState<S>)
    requires st.length > 0 ==> st.agg.Some?
    ensures r.length > 0 && r.agg.Some?
  {
    var st1 :=
      if x.index != st.curIndex then
        (if st.length > 0 then Emit(ops, st) else st).(agg := None)
      else st;
    var agg := if st1.agg.None? then x.data else MergeInto(st1.agg.value, x.data, false);
    st1.(name := st1.name + x.name,
         indexSum := st1.indexSum + x.index as real,
         length := st1.length + 1,
         curIndex := x.index + 1,
         agg := Some(agg),
         sketch := ops.merge(st1.sketch, ops.decode(BitsOf(x.data))))
  }

  /** The loop over the partitions, in order, from the empty state. */
  function RunFold<S>(ops: SketchOps<S>, s0: S, xs: seq<Indexed>): (r: RunState<S>)
    ensures r.length > 0 ==> r.agg.Some?
    ensures |xs| > 0 ==> r.length > 0
  {
    if |xs| == 0 then InitialState(s0)
    else RunStep(ops, RunFold(ops, s0, xs[..|xs| - 1]), xs[|xs| - 1])
  }

  /** The loop followed by the emission of the last open run. */
  function PseudoContributors<S>(ops: SketchOps<S>, s0: S, xs: seq<Indexed>): (cs: seq<Contributor>)
    ensures |xs| == 0 <==> cs == []
  {
    var st := RunFold(ops, s0, xs);
    if st.length > 0 then Emit(ops, st).done else st.done
  }

  // ---------------------------------------------------------------------
  // The reference: one pseudo-partition per maximal run
  // ---------------------------------------------------------------------

  function ConcatNames(run: seq<Indexed>): string {
    if |run| == 0 then "" else ConcatNames(run[..|run| - 1]) + run[|run| - 1].name
  }

  function IndexSum(run: seq<Indexed>): real {
    if |run| == 0 then 0.0 else IndexSum(run[..|run| - 1]) + run[|run| - 1].index as real
  }

  /** The estimator at the end of the last of `runs`: the first run folds into
      `s0`, every later run into an empty estimator of the same kind as the
      one its predecessor ended with. */
  function FinalSketch<S>(ops: SketchOps<S>, s0: S, runs: seq<seq<Indexed>>): S
    requires |runs| > 0
  {
    var start := if |runs| == 1 then s0 else ops.emptyLike(FinalSketch(ops, s0, runs[..|runs| - 1]));
    SketchFold(ops, start, AllBits(DataOf(Last(runs))))
  }

  /** The pseudo-partition made from one run, given its NDV. */
  function RunContributor(run: seq<Indexed>, ndv: int): (c: Contributor)
    requires |run| > 0
    ensures c.stats.numDVs == ndv
    ensures forall j :: 0 <= j < |run| ==> c.stats.low <= run[j].data.low && c.stats.high >= run[j].data.high
    ensures exists j :: 0 <= j < |run| && c.stats.low == run[j].data.low
    ensures exists j :: 0 <= j < |run| && c.stats.high == run[j].data.high
    ensures c.stats.numNulls == SumNulls(DataOf(run))
  {
    var ds := DataOf(run);
    assert forall j :: 0 <= j < |run| ==> ds[j] == run[j].data;
    Contributor(ConcatNames(run), IndexSum(run) / (|run| as real), MergeAll(ds, false).(numDVs := ndv))
  }

  /** One pseudo-partition per run, each carrying the estimate of the
      estimator as it stands at the end of that run. */
  function RunContributors<S>(ops: SketchOps<S>, s0: S, runs: seq<seq<Indexed>>): (cs: seq<Contributor>)
    requires forall k :: 0 <= k < |runs| ==> |runs[k]| > 0
    ensures |cs| == |runs|
  {
    if |runs| == 0 then []
    else
      RunContributors(ops, s0, runs[..|runs| - 1])
        + [RunContributor(Last(runs), ops.estimate(FinalSketch(ops, s0, runs)))]
  }

  /** The `k`-th pseudo-partition is made from run `k`, with the estimate of
      the estimator at the end of run `k`. */
  lemma {:induction false} RunContributorAt<S>(ops: SketchOps<S>, s0: S, runs: seq<seq<Indexed>>, k: nat)
    requires forall j :: 0 <= j < |runs| ==> |runs[j]| > 0
    requires k < |runs|
    ensures RunContributors(ops, s0, runs)[k]
         == RunContributor(runs[k], ops.estimate(FinalSketch(ops, s0, runs[..k + 1])))
    decreases |runs|
  {
    if k == |runs| - 1 {
      assert runs[..k + 1] == runs;
    } else {
      var prefix := runs[..|runs| - 1];
      assert RunContributors(ops, s0, runs)[k] == RunContributors(ops, s0, prefix)[k];
      RunContributorAt(ops, s0, prefix, k);
      assert prefix[..k + 1] == runs[..k + 1];
      assert prefix[k] == runs[k];
    }
  }

  // ---------------------------------------------------------------------
  // The loop computes the reference
  // ---------------------------------------------------------------------

  /** After a non-empty prefix, the loop state summarises its maximal runs:
      every run but the last has been emitted, and the open run is the last. */
  ghost predicate Summarises<S>(ops: SketchOps<S>, s0: S, xs: seq<Indexed>, st: RunState<S>)
    requires |xs| > 0
  {
    SummarisesRuns(ops, s0, SplitRuns(xs), st)
  }

  ghost predicate SummarisesRuns<S>(ops: SketchOps<S>, s0: S, rs: seq<seq<Indexed>>, st: RunState<S>)
    requires |rs| > 0 && forall k :: 0 <= k < |rs| ==> |rs[k]| > 0
  {
    var l := Last(rs);
    && st.done == RunContributors(ops, s0, rs[..|rs| - 1])
    && st.name == ConcatNames(l)
    && st.indexSum == IndexSum(l)
    && st.length == |l|
    && st.curIndex == Last(l).index + 1
    && st.agg == Some(MergeAll(DataOf(l), false))
    && st.sketch == FinalSketch(ops, s0, rs)
  }

  /** The loop emits one pseudo-partition per maximal run of consecutive
      ordinals, each carrying the estimate of its run's sketches. */
  lemma PseudoContributorsMatchRuns<S>(ops: SketchOps<S>, s0: S, xs: seq<Indexed>)
    ensures PseudoContributors(ops, s0, xs) == RunContributors(ops, s0, SplitRuns(xs))
  {
    if |xs| > 0 {
      RunFoldSummarises(ops, s0, xs);
      var st := RunFold(ops, s0, xs);
      var rs := SplitRuns(xs);
      assert rs == rs[..|rs| - 1] + [Last(rs)];
      EmitClosesRun(ops, s0, rs, st);
    }
  }

  /** Emitting the open run appends its pseudo-partition. */
  lemma EmitClosesRun<S>(ops: SketchOps<S>, s0: S, rs: seq<seq<Indexed>>, st: RunState<S>)
    requires |rs| > 0 && forall k :: 0 <= k < |rs| ==> |rs[k]| > 0
    requires SummarisesRuns(ops, s0, rs, st)
    ensures Emit(ops, st).done == RunContributors(ops, s0, rs)
    ensures Emit(ops, st).sketch == ops.emptyLike(FinalSketch(ops, s0, rs))
  {
  }

  /** The loop state after every non-empty prefix summarises its runs. */
  lemma {:induction false} RunFoldSummarises<S>(ops: SketchOps<S>, s0: S, xs: seq<Indexed>)
    requires |xs| > 0
    ensures Summarises(ops, s0, xs, RunFold(ops, s0, xs))
    decreases |xs|
  {
    var prefix := xs[..|xs| - 1];
    var x := xs[|xs| - 1];
    assert xs == prefix + [x];
    if |prefix| == 0 {
      FirstRun(ops, s0, xs);
    } else {
      RunFoldSummarises(ops, s0, prefix);
      var st := RunFold(ops, s0, prefix);
      assert RunFold(ops, s0, xs) == RunStep(ops, st, x);
      if x.index == st.curIndex {
        ExtendRun(ops, s0, prefix, st, x);
      } else {
        StartRun(ops, s0, prefix, st, x);
      }
    }
  }

  lemma ExtendRun<S>(ops: SketchOps<S>, s0: S, prefix: seq<Indexed>, st: RunState<S>, x: Indexed)
    requires |prefix| > 0 && Summarises(ops, s0, prefix, st)
    requires x.index == st.curIndex
    ensures Summarises(ops, s0, prefix + [x], RunStep(ops, st, x))
  {
    var prior := SplitRuns(prefix);
    var l := Last(prior);
    var init := prior[..|prior| - 1];
    assert (prefix + [x])[..|prefix|] == prefix;
    assert prior == init + [l];
    assert SplitRuns(prefix + [x]) == init + [l + [x]];
    ExtendRunState(ops, s0, init, l, st, x);
  }

  lemma StartRun<S>(ops: SketchOps<S>, s0: S, prefix: seq<Indexed>, st: RunState<S>, x: Indexed)
    requires |prefix| > 0 && Summarises(ops, s0, prefix, st)
    requires x.index != st.curIndex
    ensures Summarises(ops, s0, prefix + [x], RunStep(ops, st, x))
  {
    var prior := SplitRuns(prefix);
    assert (prefix + [x])[..|prefix|] == prefix;
    assert SplitRuns(prefix + [x]) == prior + [[x]];
    EmitClosesRun(ops, s0, prior, st);
    StartRunState(ops, s0, prior, st, x);
  }

  lemma FirstRun<S>(ops: SketchOps<S>, s0: S, xs: seq<Indexed>)
    requires |xs| == 1
    ensures Summarises(ops, s0, xs, RunFold(ops, s0, xs))
  {
    var x := xs[0];
    assert xs[..0] == [];
    var rs := SplitRuns(xs);
    assert rs == [[x]];
    assert rs[..0] == [];
    assert RunFold(ops, s0, xs) == RunStep(ops, InitialState(s0), x);
    SingletonRun(x);
    FoldSnoc(ops, s0, [], x);
    assert [] + [x] == [x];
  }

  /** A partition extending the open run joins it. */
  lemma ExtendRunState<S>(ops: SketchOps<S>, s0: S, init: seq<seq<Indexed>>, l: seq<Indexed>,
                          st: RunState<S>, x: Indexed)
    requires |l| > 0 && forall k :: 0 <= k < |init| ==> |init[k]| > 0
    requires SummarisesRuns(ops, s0, init + [l], st)
    requires x.index == st.curIndex
    ensures SummarisesRuns(ops, s0, init + [l + [x]], RunStep(ops, st, x))
  {
    var rs := init + [l + [x]];
    assert rs[..|rs| - 1] == init;
    assert (init + [l])[..|init|] == init;
    var r := RunStep(ops, st, x);
    StepExtends(ops, st, x);
    assert r.name == ConcatNames(l + [x]) by { ConcatNamesSnoc(l, x); }
    assert r.indexSum == IndexSum(l + [x]) by { IndexSumSnoc(l, x); }
    assert r.agg == Some(MergeAll(DataOf(l + [x]), false)) by { MergeAllSnoc(l, x); }
    assert r.sketch == FinalSketch(ops, s0, rs) by { FinalSketchExtends(ops, s0, init, l, x); }
  }

  /** A partition not extending the open run starts a new one, after the
      open run has been emitted. */
  lemma StartRunState<S>(ops: SketchOps<S>, s0: S, prior: seq<seq<Indexed>>, st: RunState<S>, x: Indexed)
    requires |prior| > 0 && forall k :: 0 <= k < |prior| ==> |prior[k]| > 0
    requires st.length > 0 && st.agg.Some? && x.index != st.curIndex
    requires Emit(ops, st).done == RunContributors(ops, s0, prior)
    requires Emit(ops, st).sketch == ops.emptyLike(FinalSketch(ops, s0, prior))
    ensures SummarisesRuns(ops, s0, prior + [[x]], RunStep(ops, st, x))
  {
    var rs := prior + [[x]];
    assert rs[..|rs| - 1] == prior;
    StepStarts(ops, st, x);
    SingletonRun(x);
    FinalSketchStarts(ops, s0, prior, x);
  }

  /** The loop step on a partition that extends the open run. */
  lemma StepExtends<S>(ops: SketchOps<S>, st: RunState<S>, x: Indexed)
    requires st.length > 0 && st.agg.Some? && x.index == st.curIndex
    ensures RunStep(ops, st, x)
         == st.(name := st.name + x.name, indexSum := st.indexSum + x.index as real,
                length := st.length + 1, curIndex := x.index + 1,
                agg := Some(MergeInto(st.agg.value, x.data, false)),
                sketch := ops.merge(st.sketch, ops.decode(BitsOf(x.data))))
  {
  }

  /** The loop step on a partition that does not extend the open run. */
  lemma StepStarts<S>(ops: SketchOps<S>, st: RunState<S>, x: Indexed)
    requires st.length > 0 && st.agg.Some? && x.index != st.curIndex
    ensures var e := Emit(ops, st);
      RunStep(ops, st, x)
         == e.(name := x.name, indexSum := x.index as real, length := 1, curIndex := x.index + 1,
               agg := Some(x.data), sketch := ops.merge(e.sketch, ops.decode(BitsOf(x.data))))
  {
  }

  lemma ConcatNamesSnoc(l: seq<Indexed>, x: Indexed)
    ensures ConcatNames(l + [x]) == ConcatNames(l) + x.name
  {
    assert (l + [x])[..|l|] == l;
  }

  lemma IndexSumSnoc(l: seq<Indexed>, x: Indexed)
    ensures IndexSum(l + [x]) == IndexSum(l) + x.index as real
  {
    assert (l + [x])[..|l|] == l;
  }

  lemma MergeAllSnoc(l: seq<Indexed>, x: Indexed)
    requires |l| > 0
    ensures MergeAll(DataOf(l + [x]), false) == MergeInto(MergeAll(DataOf(l), false), x.data, false)
  {
    var ds := DataOf(l);
    assert DataOf(l + [x]) == ds + [x.data];
    assert (ds + [x.data])[..|ds|] == ds;
  }

  /** The statistics, name and ordinal sum of a one-partition run. */
  lemma SingletonRun(x: Indexed)
    ensures ConcatNames([x]) == x.name && IndexSum([x]) == x.index as real
    ensures MergeAll(DataOf([x]), false) == x.data
  {
    assert [x][..0] == [];
    assert DataOf([x]) == [x.data];
  }

  lemma FoldSnoc<S>(ops: SketchOps<S>, start: S, l: seq<Indexed>, x: Indexed)
    ensures SketchFold(ops, start, AllBits(DataOf(l + [x])))
         == ops.merge(SketchFold(ops, start, AllBits(DataOf(l))), ops.decode(BitsOf(x.data)))
  {
    var bs := AllBits(DataOf(l));
    assert AllBits(DataOf(l + [x])) == bs + [BitsOf(x.data)];
    assert (bs + [BitsOf(x.data)])[..|bs|] == bs;
  }

  lemma FinalSketchExtends<S>(ops: SketchOps<S>, s0: S, init: seq<seq<Indexed>>, l: seq<Indexed>, x: Indexed)
    ensures FinalSketch(ops, s0, init + [l + [x]])
         == ops.merge(FinalSketch(ops, s0, init + [l]), ops.decode(BitsOf(x.data)))
  {
    assert (init + [l + [x]])[..|init|] == init;
    assert (init + [l])[..|init|] == init;
    FoldSnoc(ops, if |init| == 0 then s0 else ops.emptyLike(FinalSketch(ops, s0, init)), l, x);
  }

  lemma FinalSketchStarts<S>(ops: SketchOps<S>, s0: S, prior: seq<seq<Indexed>>, x: Indexed)
    requires |prior| > 0
    ensures FinalSketch(ops, s0, prior + [[x]])
         == ops.merge(ops.emptyLike(FinalSketch(ops, s0, prior)), ops.decode(BitsOf(x.data)))
  {
    assert (prior + [[x]])[..|prior|] == prior;
    FoldSnoc(ops, ops.emptyLike(FinalSketch(ops, s0, prior)), [], x);
    assert [] + [x] == [x];
  }

  // ---------------------------------------------------------------------
  // What the grouping keeps
  // ---------------------------------------------------------------------

  lemma DataOfAppend(a: seq<Indexed>, b: seq<Indexed>)
    ensures DataOf(a + b) == DataOf(a) + DataOf(b)
  {
  }

  /** The pseudo-partitions of a list of runs carry, together, exactly the
      nulls of the runs' partitions. */
  lemma {:induction false} RunContributorsKeepNulls<S>(ops: SketchOps<S>, s0: S, runs: seq<seq<Indexed>>)
    requires forall k :: 0 <= k < |runs| ==> |runs[k]| > 0
    ensures SumNulls(StatsOf(RunContributors(ops, s0, runs))) == SumNulls(DataOf(Flatten(runs)))
    decreases |runs|
  {
    if |runs| > 0 {
      var init := runs[..|runs| - 1];
      RunContributorsKeepNulls(ops, s0, init);
      var c := RunContributor(Last(runs), ops.estimate(FinalSketch(ops, s0, runs)));
      var cs := RunContributors(ops, s0, init);
      StatsOfSnoc(cs, c);
      assert StatsOf(cs + [c])[..|cs|] == StatsOf(cs);
      DataOfAppend(Flatten(init), Last(runs));
      SumNullsAppend(DataOf(Flatten(init)), DataOf(Last(runs)));
    }
  }

  /** Grouping the partitions into pseudo-partitions keeps the total null
      count. */
  lemma PseudoContributorsKeepNulls<S>(ops: SketchOps<S>, s0: S, xs: seq<Indexed>)
    ensures SumNulls(StatsOf(PseudoContributors(ops, s0, xs))) == SumNulls(DataOf(xs))
  {
    PseudoContributorsMatchRuns(ops, s0, xs);
    SplitRunsIsDecomposition(xs);
    RunContributorsKeepNulls(ops, s0, SplitRuns(xs));
  }

  /** A run of consecutive ordinals spans `|run| - 1` ordinals, and its
      ordinals sum to `|run|` times the mean of its first and last. */
  lemma {:induction false} ConsecutiveIndexSum(run: seq<Indexed>)
    requires |run| > 0 && Consecutive(run)
    ensures Last(run).index == run[0].index + |run| - 1
    ensures 2.0 * IndexSum(run) == (|run| * (run[0].index + Last(run).index)) as real
    decreases |run|
  {
    if |run| == 1 {
      assert run[..0] == [];
    } else {
      var p := run[..|run| - 1];
      assert forall j :: 0 <= j < |p| ==> p[j] == run[j];
      assert Consecutive(p);
      ConsecutiveIndexSum(p);
      var n := |run|;
      var f := run[0].index;
      assert Last(run).index == Last(p).index + 1;
      assert (n - 1) * (2 * f + n - 2) + 2 * (f + n - 1) == n * (2 * f + n - 1) by {
        assert (n - 1) * (2 * f + n - 2) == n * (2 * f + n - 1) - 2 * f - 2 * n + 2 - n + n by {
          assert (n - 1) * (2 * f + n - 2) == n * (2 * f + n - 2) - (2 * f + n - 2);
          assert n * (2 * f + n - 2) == n * (2 * f + n - 1) - n;
        }
      }
    }
  }

  /** A pseudo-partition made from a consecutive run sits at the midpoint of
      its first and last ordinals. */
  lemma RunPositionIsMidpoint(run: seq<Indexed>, ndv: int)
    requires |run| > 0 && Consecutive(run)
    ensures 2.0 * RunContributor(run, ndv).pos == (run[0].index + Last(run).index) as real
  {
    ConsecutiveIndexSum(run);
    var m := run[0].index + Last(run).index;
    assert 2.0 * IndexSum(run) == (|run| as real) * (m as real);
    HalfOfMean(IndexSum(run), |run| as real, m as real);
  }

  lemma HalfOfMean(s: real, n: real, m: real)
    requires n > 0.0 && 2.0 * s == n * m
    ensures 2.0 * (s / n) == m
  {
    var q := s / n;
    assert s == q * n;
    assert n * (2.0 * q - m) == 0.0;
  }

  /** Every element of a run is an element of the concatenation. */
  lemma {:induction false} FlattenHasRunElement(runs: seq<seq<Indexed>>, k: nat, j: nat)
    requires k < |runs| && j < |runs[k]|
    ensures exists i :: 0 <= i < |Flatten(runs)| && Flatten(runs)[i] == runs[k][j]
    decreases |runs|
  {
    var init := runs[..|runs| - 1];
    assert Flatten(runs) == Flatten(init) + runs[|runs| - 1];
    if k == |runs| - 1 {
      assert Flatten(runs)[|Flatten(init)| + j] == runs[k][j];
    } else {
      FlattenHasRunElement(init, k, j);
      var i :| 0 <= i < |Flatten(init)| && Flatten(init)[i] == init[k][j];
      assert Flatten(runs)[i] == runs[k][j];
    }
  }

  /** Every element of the concatenation lies in one of the runs. */
  lemma {:induction false} FlattenElementInRun(runs: seq<seq<Indexed>>, i: nat)
    requires i < |Flatten(runs)|
    ensures exists k, j :: 0 <= k < |runs| && 0 <= j < |runs[k]| && runs[k][j] == Flatten(runs)[i]
    decreases |runs|
  {
    var init := runs[..|runs| - 1];
    assert Flatten(runs) == Flatten(init) + runs[|runs| - 1];
    if i < |Flatten(init)| {
      FlattenElementInRun(init, i);
      var k, j :| 0 <= k < |init| && 0 <= j < |init[k]| && init[k][j] == Flatten(init)[i];
      assert runs[k][j] == Flatten(runs)[i];
    } else {
      assert runs[|runs| - 1][i - |Flatten(init)|] == Flatten(runs)[i];
    }
  }

  /** `p` is the midpoint of two partitions' ordinals. */
  ghost predicate IsMidpoint(xs: seq<Indexed>, p: real) {
    exists i, j :: 0 <= i < |xs| && 0 <= j < |xs| && 2.0 * p == (xs[i].index + xs[j].index) as real
  }

  /** Each pseudo-partition sits at the midpoint of two partitions'
      ordinals: its run's first and last. */
  lemma PseudoPositionsAreMidpoints<S>(ops: SketchOps<S>, s0: S, xs: seq<Indexed>)
    ensures var cs := PseudoContributors(ops, s0, xs);
      forall k :: 0 <= k < |cs| ==> IsMidpoint(xs, cs[k].pos)
  {
    PseudoContributorsMatchRuns(ops, s0, xs);
    RunPositionsAreMidpoints(ops, s0, xs);
  }

  lemma RunPositionsAreMidpoints<S>(ops: SketchOps<S>, s0: S, xs: seq<Indexed>)
    ensures var cs := RunContributors(ops, s0, SplitRuns(xs));
      forall k :: 0 <= k < |cs| ==> IsMidpoint(xs, cs[k].pos)
  {
    SplitRunsIsDecomposition(xs);
    var runs := SplitRuns(xs);
    var cs := RunContributors(ops, s0, runs);
    forall k | 0 <= k < |cs|
      ensures IsMidpoint(xs, cs[k].pos)
    {
      RunMidpoint(ops, s0, xs, runs, k);
    }
  }

  lemma RunMidpoint<S>(ops: SketchOps<S>, s0: S, xs: seq<Indexed>, runs: seq<seq<Indexed>>, k: nat)
    requires IsRunDecomposition(xs, runs) && k < |runs|
    ensures IsMidpoint(xs, RunContributors(ops, s0, runs)[k].pos)
  {
    RunContributorAt(ops, s0, runs, k);
    assert Consecutive(runs[k]);
    RunPositionIsMidpoint(runs[k], ops.estimate(FinalSketch(ops, s0, runs[..k + 1])));
    FlattenHasRunElement(runs, k, 0);
    FlattenHasRunElement(runs, k, |runs[k]| - 1);
  }

  /** Some contributor's low is at most `d`'s low. */
  ghost predicate LowCovered(cs: seq<Contributor>, d: DecimalStats) {
    exists k :: 0 <= k < |cs| && cs[k].stats.low <= d.low
  }

  /** Each partition's low is at least its pseudo-partition's low. */
  lemma PseudoContributorsCoverLows<S>(ops: SketchOps<S>, s0: S, xs: seq<Indexed>)
    ensures forall i :: 0 <= i < |xs| ==> LowCovered(PseudoContributors(ops, s0, xs), xs[i].data)
  {
    PseudoContributorsMatchRuns(ops, s0, xs);
    SplitRunsIsDecomposition(xs);
    var runs := SplitRuns(xs);
    forall i | 0 <= i < |xs| {
      RunCoversLow(ops, s0, xs, runs, i);
    }
  }

  lemma RunCoversLow<S>(ops: SketchOps<S>, s0: S, xs: seq<Indexed>, runs: seq<seq<Indexed>>, i: nat)
    requires IsRunDecomposition(xs, runs) && i < |xs|
    ensures LowCovered(RunContributors(ops, s0, runs), xs[i].data)
  {
    FlattenElementInRun(runs, i);
    var k, j :| 0 <= k < |runs| && 0 <= j < |runs[k]| && runs[k][j] == xs[i];
    RunContributorAt(ops, s0, runs, k);
  }
}
