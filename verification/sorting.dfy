/** `Collections.sort` of the contributors with a comparator on one of their
    statistics: a stable ascending sort. The extrapolation sorts one list
    three times in place (by low value, by high value, by NDV), so each sort
    breaks its ties by the order the previous one left. */
module Sorting {
  import opened ColumnStats

  datatype Field = LowField | HighField | NdvField

  function FieldValue(c: Contributor, f: Field): real {
    match f
    case LowField => c.stats.low
    case HighField => c.stats.high
    case NdvField => c.stats.numDVs as real
  }

  /** Ascending on `f`. */
  ghost predicate SortedOn(cs: seq<Contributor>, f: Field) {
    forall i, j :: 0 <= i < j < |cs| ==> FieldValue(cs[i], f) <= FieldValue(cs[j], f)
  }

  /** The entries whose field `f` is `v`, in their order in `cs`. */
  function WithValue(cs: seq<Contributor>, f: Field, v: real): seq<Contributor> {
    if |cs| == 0 then []
    else WithValue(cs[..|cs| - 1], f, v) + (if FieldValue(cs[|cs| - 1], f) == v then [cs[|cs| - 1]] else [])
  }

  /** `c` placed into `cs` after the last entry whose value is at most its
      own, where a stable insertion sort places it. */
  function Insert(cs: seq<Contributor>, c: Contributor, f: Field): (r: seq<Contributor>)
    ensures |r| == |cs| + 1
    decreases |cs|
  {
    if |cs| == 0 || FieldValue(cs[|cs| - 1], f) <= FieldValue(c, f) then cs + [c]
    else Insert(cs[..|cs| - 1], c, f) + [cs[|cs| - 1]]
  }

  /** Insertion adds exactly `c`. */
  lemma {:induction false} InsertPermutes(cs: seq<Contributor>, c: Contributor, f: Field)
    ensures multiset(Insert(cs, c, f)) == multiset(cs) + multiset{c}
    decreases |cs|
  {
    if |cs| > 0 && FieldValue(cs[|cs| - 1], f) > FieldValue(c, f) {
      var init := cs[..|cs| - 1];
      InsertPermutes(init, c, f);
      assert cs == init + [cs[|cs| - 1]];
    }
  }

  /** The stable ascending sort of `cs` on `f`. */
  function SortBy(cs: seq<Contributor>, f: Field): (r: seq<Contributor>)
    ensures multiset(r) == multiset(cs)
    ensures |r| == |cs|
  {
    if |cs| == 0 then []
    else
      assert cs == cs[..|cs| - 1] + [cs[|cs| - 1]];
      InsertPermutes(SortBy(cs[..|cs| - 1], f), cs[|cs| - 1], f);
      Insert(SortBy(cs[..|cs| - 1], f), cs[|cs| - 1], f)
  }

  /** Inserting into a sorted list keeps it sorted. */
  lemma {:induction false} InsertSorted(cs: seq<Contributor>, c: Contributor, f: Field)
    requires SortedOn(cs, f)
    ensures SortedOn(Insert(cs, c, f), f)
    decreases |cs|
  {
    if |cs| > 0 && FieldValue(cs[|cs| - 1], f) > FieldValue(c, f) {
      var init := cs[..|cs| - 1];
      var l := cs[|cs| - 1];
      var r' := Insert(init, c, f);
      assert Insert(cs, c, f) == r' + [l];
      PrefixSorted(cs, f);
      InsertSorted(init, c, f);
      assert forall i :: 0 <= i < |init| ==> init[i] == cs[i];
      InsertBelow(init, c, f, FieldValue(l, f));
      assert forall i :: 0 <= i < |r'| ==> FieldValue(r'[i], f) <= FieldValue(l, f);
      SnocSorted(r', l, f);
    } else {
      assert Insert(cs, c, f) == cs + [c];
      forall i | 0 <= i < |cs|
        ensures FieldValue(cs[i], f) <= FieldValue(c, f)
      {
        assert FieldValue(cs[i], f) <= FieldValue(cs[|cs| - 1], f);
      }
      SnocSorted(cs, c, f);
    }
  }

  /** A sorted list without its last entry is sorted and no greater than it. */
  lemma PrefixSorted(cs: seq<Contributor>, f: Field)
    requires |cs| > 0 && SortedOn(cs, f)
    ensures SortedOn(cs[..|cs| - 1], f)
    ensures forall i :: 0 <= i < |cs| - 1 ==> FieldValue(cs[i], f) <= FieldValue(cs[|cs| - 1], f)
  {
    var init := cs[..|cs| - 1];
    forall i, j | 0 <= i < j < |init|
      ensures FieldValue(init[i], f) <= FieldValue(init[j], f)
    {
      assert init[i] == cs[i] && init[j] == cs[j];
    }
    forall i | 0 <= i < |init|
      ensures FieldValue(init[i], f) <= FieldValue(cs[|cs| - 1], f)
    {
      assert init[i] == cs[i];
    }
  }

  /** Inserting an entry no greater than `m` into entries no greater than
      `m` gives entries no greater than `m`. */
  lemma InsertBelow(cs: seq<Contributor>, c: Contributor, f: Field, m: real)
    requires forall i :: 0 <= i < |cs| ==> FieldValue(cs[i], f) <= m
    requires FieldValue(c, f) <= m
    ensures forall i :: 0 <= i < |Insert(cs, c, f)| ==> FieldValue(Insert(cs, c, f)[i], f) <= m
  {
    var r := Insert(cs, c, f);
    InsertPermutes(cs, c, f);
    forall i | 0 <= i < |r|
      ensures FieldValue(r[i], f) <= m
    {
      assert r[i] in multiset(r);
      if r[i] != c {
        assert r[i] in multiset(cs);
        var k :| 0 <= k < |cs| && cs[k] == r[i];
      }
    }
  }

  /** A sorted list followed by an entry at least as large as all of it. */
  lemma SnocSorted(cs: seq<Contributor>, l: Contributor, f: Field)
    requires SortedOn(cs, f)
    requires forall i :: 0 <= i < |cs| ==> FieldValue(cs[i], f) <= FieldValue(l, f)
    ensures SortedOn(cs + [l], f)
  {
    var r := cs + [l];
    forall i, j | 0 <= i < j < |r|
      ensures FieldValue(r[i], f) <= FieldValue(r[j], f)
    {
      if j == |r| - 1 {
        assert r[i] == cs[i];
      } else {
        assert r[i] == cs[i] && r[j] == cs[j];
      }
    }
  }

  /** The sort's output is ascending. */
  lemma {:induction false} SortBySorted(cs: seq<Contributor>, f: Field)
    ensures SortedOn(SortBy(cs, f), f)
    decreases |cs|
  {
    if |cs| > 0 {
      SortBySorted(cs[..|cs| - 1], f);
      InsertSorted(SortBy(cs[..|cs| - 1], f), cs[|cs| - 1], f);
    }
  }

  lemma {:induction false} WithValueAppend(a: seq<Contributor>, b: seq<Contributor>, f: Field, v: real)
    ensures WithValue(a + b, f, v) == WithValue(a, f, v) + WithValue(b, f, v)
    decreases |b|
  {
    if |b| == 0 {
      assert a + b == a;
    } else {
      assert (a + b)[..|a + b| - 1] == a + b[..|b| - 1];
      WithValueAppend(a, b[..|b| - 1], f, v);
    }
  }

  lemma WithValueSnoc(cs: seq<Contributor>, x: Contributor, f: Field, v: real)
    ensures WithValue(cs + [x], f, v) == WithValue(cs, f, v) + (if FieldValue(x, f) == v then [x] else [])
  {
    assert (cs + [x])[..|cs|] == cs;
  }

  /** The entries with value `v` after the insertion: those before it, then
      `c` if it has that value. */
  lemma {:induction false} InsertStable(cs: seq<Contributor>, c: Contributor, f: Field, v: real)
    ensures WithValue(Insert(cs, c, f), f, v)
         == WithValue(cs, f, v) + (if FieldValue(c, f) == v then [c] else [])
    decreases |cs|
  {
    if |cs| == 0 || FieldValue(cs[|cs| - 1], f) <= FieldValue(c, f) {
      WithValueSnoc(cs, c, f, v);
    } else {
      var init := cs[..|cs| - 1];
      var l := cs[|cs| - 1];
      var r' := Insert(init, c, f);
      assert Insert(cs, c, f) == r' + [l];
      InsertStable(init, c, f, v);
      assert cs == init + [l];
      StableStep(r', init, c, l, f, v);
    }
  }

  /** Appending an entry greater than `c` to both sides keeps the entries
      with value `v` related as before. */
  lemma StableStep(r: seq<Contributor>, init: seq<Contributor>, c: Contributor, l: Contributor, f: Field, v: real)
    requires WithValue(r, f, v) == WithValue(init, f, v) + (if FieldValue(c, f) == v then [c] else [])
    requires FieldValue(l, f) > FieldValue(c, f)
    ensures WithValue(r + [l], f, v) == WithValue(init + [l], f, v) + (if FieldValue(c, f) == v then [c] else [])
  {
    WithValueSnoc(r, l, f, v);
    WithValueSnoc(init, l, f, v);
    var cv := if FieldValue(c, f) == v then [c] else [];
    var lv := if FieldValue(l, f) == v then [l] else [];
    assert cv == [] || lv == [];
    SwapEmpty(WithValue(init, f, v), cv, lv);
  }

  lemma SwapEmpty<T>(a: seq<T>, x: seq<T>, y: seq<T>)
    requires x == [] || y == []
    ensures a + x + y == a + y + x
  {
    if x == [] {
      assert a + x == a;
      assert a + y + x == a + y;
    } else {
      assert a + y == a;
      assert a + x + y == a + x;
    }
  }

  /** The sort is stable: the entries sharing any one value keep their
      relative order. */
  lemma {:induction false} SortByStable(cs: seq<Contributor>, f: Field, v: real)
    ensures WithValue(SortBy(cs, f), f, v) == WithValue(cs, f, v)
    decreases |cs|
  {
    if |cs| > 0 {
      SortByStable(cs[..|cs| - 1], f, v);
      InsertStable(SortBy(cs[..|cs| - 1], f), cs[|cs| - 1], f, v);
    }
  }

  /** The head of the sort holds the smallest value and its tail the
      largest, and both are entries of the input. */
  lemma SortedEnds(cs: seq<Contributor>, f: Field)
    requires |cs| > 0
    ensures var r := SortBy(cs, f);
      && r[0] in cs && r[|r| - 1] in cs
      && forall x :: x in cs ==> FieldValue(r[0], f) <= FieldValue(x, f) <= FieldValue(r[|r| - 1], f)
  {
    var r := SortBy(cs, f);
    SortBySorted(cs, f);
    assert r[0] in multiset(cs) && r[|r| - 1] in multiset(cs);
    forall x | x in cs
      ensures FieldValue(r[0], f) <= FieldValue(x, f) <= FieldValue(r[|r| - 1], f)
    {
      assert x in multiset(r);
      var j :| 0 <= j < |r| && r[j] == x;
    }
  }

  /** A list's head is the first of its entries holding the head's value. */
  lemma {:induction false} WithValueHead(r: seq<Contributor>, f: Field)
    requires |r| > 0
    ensures var w := WithValue(r, f, FieldValue(r[0], f)); |w| > 0 && w[0] == r[0]
    decreases |r|
  {
    var init := r[..|r| - 1];
    if |r| > 1 {
      assert init[0] == r[0];
      WithValueHead(init, f);
    } else {
      assert init == [];
    }
  }

  /** Ties in a stable sort: its head is the first entry of the input that
      holds the smallest value. */
  lemma SortHeadIsFirstLeast(cs: seq<Contributor>, f: Field)
    requires |cs| > 0
    ensures var r := SortBy(cs, f);
      var w := WithValue(cs, f, FieldValue(r[0], f));
      |w| > 0 && w[0] == r[0]
  {
    var r := SortBy(cs, f);
    SortByStable(cs, f, FieldValue(r[0], f));
    WithValueHead(r, f);
  }

  /** Ties in a stable sort: its tail is the last entry of the input that
      holds the largest value. */
  lemma SortTailIsLastGreatest(cs: seq<Contributor>, f: Field)
    requires |cs| > 0
    ensures var r := SortBy(cs, f);
      var w := WithValue(cs, f, FieldValue(r[|r| - 1], f));
      |w| > 0 && w[|w| - 1] == r[|r| - 1]
  {
    var r := SortBy(cs, f);
    SortByStable(cs, f, FieldValue(r[|r| - 1], f));
  }

  /** No two contributors share a position. */
  ghost predicate DistinctPositions(cs: seq<Contributor>) {
    forall i, j :: 0 <= i < |cs| && 0 <= j < |cs| && i != j ==> cs[i].pos != cs[j].pos
  }

  lemma SnocKeepsDistinctPositions(cs: seq<Contributor>, c: Contributor)
    requires DistinctPositions(cs)
    requires forall x :: x in cs ==> x.pos != c.pos
    ensures DistinctPositions(cs + [c])
  {
    var r := cs + [c];
    forall i, j | 0 <= i < |r| && 0 <= j < |r| && i != j
      ensures r[i].pos != r[j].pos
    {
      if i == |cs| {
        assert r[j] in cs;
      } else if j == |cs| {
        assert r[i] in cs;
      } else {
        assert r[i] == cs[i] && r[j] == cs[j];
      }
    }
  }

  lemma PrefixKeepsDistinctPositions(cs: seq<Contributor>)
    requires |cs| > 0 && DistinctPositions(cs)
    ensures DistinctPositions(cs[..|cs| - 1])
    ensures forall x :: x in cs[..|cs| - 1] ==> x.pos != cs[|cs| - 1].pos
  {
    var init := cs[..|cs| - 1];
    forall i, j | 0 <= i < |init| && 0 <= j < |init| && i != j
      ensures init[i].pos != init[j].pos
    {
      assert init[i] == cs[i] && init[j] == cs[j];
    }
    forall x | x in init
      ensures x.pos != cs[|cs| - 1].pos
    {
      var k :| 0 <= k < |init| && init[k] == x;
      assert cs[k] == x;
    }
  }

  lemma {:induction false} InsertKeepsDistinctPositions(cs: seq<Contributor>, c: Contributor, f: Field)
    requires DistinctPositions(cs)
    requires forall x :: x in cs ==> x.pos != c.pos
    ensures DistinctPositions(Insert(cs, c, f))
    decreases |cs|
  {
    if |cs| > 0 && FieldValue(cs[|cs| - 1], f) > FieldValue(c, f) {
      var init := cs[..|cs| - 1];
      var l := cs[|cs| - 1];
      PrefixKeepsDistinctPositions(cs);
      assert l.pos != c.pos;
      InsertKeepsDistinctPositions(init, c, f);
      var r' := Insert(init, c, f);
      InsertPermutes(init, c, f);
      forall x | x in r'
        ensures x.pos != l.pos
      {
        assert x in multiset(r');
      }
      SnocKeepsDistinctPositions(r', l);
    } else {
      SnocKeepsDistinctPositions(cs, c);
    }
  }

  /** Sorting keeps positions distinct. */
  lemma {:induction false} SortKeepsDistinctPositions(cs: seq<Contributor>, f: Field)
    requires DistinctPositions(cs)
    ensures DistinctPositions(SortBy(cs, f))
    decreases |cs|
  {
    if |cs| > 0 {
      var init := cs[..|cs| - 1];
      var c := cs[|cs| - 1];
      PrefixKeepsDistinctPositions(cs);
      SortKeepsDistinctPositions(init, f);
      forall x | x in SortBy(init, f)
        ensures x.pos != c.pos
      {
        assert x in multiset(SortBy(init, f));
      }
      InsertKeepsDistinctPositions(SortBy(init, f), c, f);
    }
  }

  lemma {:induction false} InsertKeepsNdvSum(cs: seq<Contributor>, c: Contributor, f: Field)
    ensures SumNdv(StatsOf(Insert(cs, c, f))) == SumNdv(StatsOf(cs)) + c.stats.numDVs
    decreases |cs|
  {
    if |cs| == 0 || FieldValue(cs[|cs| - 1], f) <= FieldValue(c, f) {
      NdvSumSnoc(cs, c);
    } else {
      var init := cs[..|cs| - 1];
      var l := cs[|cs| - 1];
      assert Insert(cs, c, f) == Insert(init, c, f) + [l];
      InsertKeepsNdvSum(init, c, f);
      NdvSumSnoc(Insert(init, c, f), l);
      assert cs == init + [l];
      NdvSumSnoc(init, l);
    }
  }

  lemma NdvSumSnoc(cs: seq<Contributor>, c: Contributor)
    ensures SumNdv(StatsOf(cs + [c])) == SumNdv(StatsOf(cs)) + c.stats.numDVs
  {
    StatsOfSnoc(cs, c);
    assert (StatsOf(cs) + [c.stats])[..|cs|] == StatsOf(cs);
  }

  /** Sorting keeps the NDV total. */
  lemma {:induction false} SortKeepsNdvSum(cs: seq<Contributor>, f: Field)
    ensures SumNdv(StatsOf(SortBy(cs, f))) == SumNdv(StatsOf(cs))
    decreases |cs|
  {
    if |cs| > 0 {
      var init := cs[..|cs| - 1];
      var c := cs[|cs| - 1];
      assert SortBy(cs, f) == Insert(SortBy(init, f), c, f);
      SortKeepsNdvSum(init, f);
      InsertKeepsNdvSum(SortBy(init, f), c, f);
      assert cs == init + [c];
      NdvSumSnoc(init, c);
    }
  }
}
