/** Splitting the partitions that carry statistics, in input order, into
    maximal runs whose partition ordinals increase by exactly one from each
    element to the next. On the extrapolation path with usable sketches each
    such run becomes one pseudo-partition. */
module Runs {
  import opened ColumnStats

  function Last<T>(s: seq<T>): T
    requires |s| > 0
  {
    s[|s| - 1]
  }

  /** The concatenation of a list of runs. */
  function Flatten(rs: seq<seq<Indexed>>): seq<Indexed> {
    if |rs| == 0 then [] else Flatten(rs[..|rs| - 1]) + rs[|rs| - 1]
  }

  /** Each element's ordinal is one more than its predecessor's. */
  ghost predicate Consecutive(r: seq<Indexed>) {
    forall j :: 0 < j < |r| ==> r[j].index == r[j - 1].index + 1
  }

  /** `rs` cuts `xs` into non-empty consecutive runs, and no two neighbouring
      runs could be joined into one. */
  ghost predicate IsRunDecomposition(xs: seq<Indexed>, rs: seq<seq<Indexed>>) {
    && Flatten(rs) == xs
    && (forall k :: 0 <= k < |rs| ==> |rs[k]| > 0)
    && (forall k :: 0 <= k < |rs| ==> Consecutive(rs[k]))
    && (forall k :: 0 < k < |rs| ==> |rs[k - 1]| > 0 && |rs[k]| > 0 ==> rs[k][0].index != Last(rs[k - 1]).index + 1)
  }

  /** The runs, built the way a left-to-right scan builds them: the next
      partition extends the current run when its ordinal is the current run's
      last ordinal plus one, and starts a new run otherwise. */
  function SplitRuns(xs: seq<Indexed>): (rs: seq<seq<Indexed>>)
    ensures |xs| > 0 <==> |rs| > 0
    ensures |rs| <= |xs|
    ensures forall k :: 0 <= k < |rs| ==> |rs[k]| > 0
  {
    if |xs| == 0 then []
    else
      var prior := SplitRuns(xs[..|xs| - 1]);
      var x := xs[|xs| - 1];
      if |prior| > 0 && x.index == Last(Last(prior)).index + 1 then
        prior[..|prior| - 1] + [Last(prior) + [x]]
      else
        prior + [[x]]
  }

  /** `SplitRuns` cuts its input into maximal consecutive runs. */
  lemma {:induction false} SplitRunsIsDecomposition(xs: seq<Indexed>)
    ensures IsRunDecomposition(xs, SplitRuns(xs))
    decreases |xs|
  {
    if |xs| > 0 {
      var prior := SplitRuns(xs[..|xs| - 1]);
      var x := xs[|xs| - 1];
      SplitRunsIsDecomposition(xs[..|xs| - 1]);
      assert xs == xs[..|xs| - 1] + [x];
      if |prior| > 0 && x.index == Last(Last(prior)).index + 1 {
        ExtendLastRun(xs[..|xs| - 1], prior, x);
      } else {
        StartRun(xs[..|xs| - 1], prior, x);
      }
    }
  }

  /** A partition adjacent to the last run's end extends that run. */
  lemma ExtendLastRun(xs: seq<Indexed>, rs: seq<seq<Indexed>>, x: Indexed)
    requires IsRunDecomposition(xs, rs)
    requires |rs| > 0 && x.index == Last(Last(rs)).index + 1
    ensures IsRunDecomposition(xs + [x], rs[..|rs| - 1] + [Last(rs) + [x]])
  {
    var init := rs[..|rs| - 1];
    var rs' := init + [Last(rs) + [x]];
    assert rs'[..|rs'| - 1] == init;
    assert Flatten(rs) == Flatten(init) + Last(rs);
    assert Flatten(rs') == Flatten(init) + (Last(rs) + [x]);
    forall k | 0 < k < |rs'|
      ensures rs'[k][0].index != Last(rs'[k - 1]).index + 1
    {
      assert rs'[k][0] == rs[k][0];
    }
  }

  /** A partition not adjacent to the last run's end starts a new run. */
  lemma StartRun(xs: seq<Indexed>, rs: seq<seq<Indexed>>, x: Indexed)
    requires IsRunDecomposition(xs, rs)
    requires |rs| > 0 ==> x.index != Last(Last(rs)).index + 1
    ensures IsRunDecomposition(xs + [x], rs + [[x]])
  {
    var rs' := rs + [[x]];
    assert rs'[..|rs'| - 1] == rs;
  }

  /** Removing the last element of the input removes it from the last run. */
  lemma DecompositionOfPrefix(xs: seq<Indexed>, rs: seq<seq<Indexed>>)
    requires |xs| > 0
    requires IsRunDecomposition(xs, rs)
    ensures |rs| > 0
    ensures |Last(rs)| == 1 ==> IsRunDecomposition(xs[..|xs| - 1], rs[..|rs| - 1])
    ensures |Last(rs)| > 1 ==>
      IsRunDecomposition(xs[..|xs| - 1], rs[..|rs| - 1] + [Last(rs)[..|Last(rs)| - 1]])
  {
    var init := rs[..|rs| - 1];
    var l := Last(rs);
    assert Flatten(rs) == Flatten(init) + l;
    assert xs[..|xs| - 1] == Flatten(init) + l[..|l| - 1];
    if |l| == 1 {
      assert xs[..|xs| - 1] == Flatten(init);
    } else {
      ShortenLastRun(init, l);
    }
  }

  lemma ShortenLastRun(init: seq<seq<Indexed>>, l: seq<Indexed>)
    requires |l| > 1
    requires IsRunDecomposition(Flatten(init + [l]), init + [l])
    ensures IsRunDecomposition(Flatten(init) + l[..|l| - 1], init + [l[..|l| - 1]])
  {
    var rs := init + [l];
    var rs' := init + [l[..|l| - 1]];
    assert rs[..|rs| - 1] == init;
    assert rs'[..|rs'| - 1] == init;
    assert Consecutive(rs[|rs| - 1]);
    forall k | 0 < k < |rs'|
      ensures rs'[k][0].index != Last(rs'[k - 1]).index + 1
    {
      assert rs'[k][0] == rs[k][0];
    }
  }

  /** The maximal-run decomposition is unique: any decomposition with the
      four properties above is the one `SplitRuns` computes. */
  lemma {:induction false} SplitRunsUnique(xs: seq<Indexed>, rs: seq<seq<Indexed>>)
    requires IsRunDecomposition(xs, rs)
    ensures rs == SplitRuns(xs)
    decreases |xs|
  {
    if |xs| > 0 {
      DecompositionOfPrefix(xs, rs);
      LastRunShape(xs, rs);
      var init := rs[..|rs| - 1];
      var l := Last(rs);
      if |l| == 1 {
        SplitRunsUnique(xs[..|xs| - 1], init);
        SplitRunsStartsRun(xs, init);
      } else {
        SplitRunsUnique(xs[..|xs| - 1], init + [l[..|l| - 1]]);
        SplitRunsExtendsRun(xs, init, l[..|l| - 1]);
      }
    }
  }

  /** The last run ends with the last partition, and is either that partition
      alone (not adjacent to the run before) or an adjacent extension. */
  lemma LastRunShape(xs: seq<Indexed>, rs: seq<seq<Indexed>>)
    requires |xs| > 0 && IsRunDecomposition(xs, rs)
    ensures |rs| > 0
    ensures rs == rs[..|rs| - 1] + [Last(rs)]
    ensures |Last(rs)| > 0 && Last(rs) == Last(rs)[..|Last(rs)| - 1] + [Last(xs)]
    ensures |Last(rs)| == 1 && |rs| > 1 ==>
      Last(xs).index != Last(rs[|rs| - 2]).index + 1 && rs[|rs| - 2] == Last(rs[..|rs| - 1])
    ensures |Last(rs)| > 1 ==> Last(xs).index == Last(Last(rs)[..|Last(rs)| - 1]).index + 1
  {
    var init := rs[..|rs| - 1];
    var l := Last(rs);
    assert Flatten(rs) == Flatten(init) + l;
    assert Last(xs) == Last(l);
    if |l| == 1 && |rs| > 1 {
      NoJoinAtLast(xs, rs);
    }
    if |l| > 1 {
      assert Consecutive(rs[|rs| - 1]);
    }
  }

  /** `SplitRuns` starts a new run with a partition not adjacent to the last run. */
  lemma SplitRunsStartsRun(xs: seq<Indexed>, init: seq<seq<Indexed>>)
    requires |xs| > 0
    requires init == SplitRuns(xs[..|xs| - 1])
    requires |init| > 0 ==> Last(xs).index != Last(Last(init)).index + 1
    ensures SplitRuns(xs) == init + [[Last(xs)]]
  {
  }

  /** `SplitRuns` extends the last run with an adjacent partition. */
  lemma SplitRunsExtendsRun(xs: seq<Indexed>, init: seq<seq<Indexed>>, l: seq<Indexed>)
    requires |xs| > 0 && |l| > 0
    requires init + [l] == SplitRuns(xs[..|xs| - 1])
    requires Last(xs).index == Last(l).index + 1
    ensures SplitRuns(xs) == init + [l + [Last(xs)]]
  {
    var prior := init + [l];
    assert Last(prior) == l;
    assert prior[..|prior| - 1] == init;
  }

  /** The last run of a decomposition cannot be joined to the one before. */
  lemma NoJoinAtLast(xs: seq<Indexed>, rs: seq<seq<Indexed>>)
    requires IsRunDecomposition(xs, rs) && |rs| > 1
    ensures rs[|rs| - 1][0].index != Last(rs[|rs| - 2]).index + 1
  {
    assert |rs[|rs| - 2]| > 0 && |rs[|rs| - 1]| > 0;
  }
}
