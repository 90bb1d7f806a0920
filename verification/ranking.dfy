/** Ranking features by score: argsort()[::-1] gives the feature indices in
    descending order of score, and the score list, the label list and any
    other per-feature array are reordered with that one index list. */
module Ranking {
  import opened Seqs

  /** ids lists features of xs from highest to lowest score. */
  predicate NonIncreasingBy(xs: seq<real>, ids: seq<int>)
  {
    InBounds(ids, |xs|) && forall i, j :: 0 <= i < j < |ids| ==> xs[ids[i]] >= xs[ids[j]]
  }

  /** A descending ranking: a permutation of 0 .. n-1 ordered by score. numpy's
      default sort does not fix the order of equal scores, so every such
      permutation is a possible result. */
  predicate DescendingRanking(xs: seq<real>, ids: seq<int>)
  {
    multiset(ids) == multiset(Range(0, |xs|)) && NonIncreasingBy(xs, ids)
  }

  /** Insert index k into a ranking, before the first feature whose score is
      not above that of k. */
  function Insert(xs: seq<real>, k: int, ids: seq<int>): (r: seq<int>)
    requires 0 <= k < |xs| && InBounds(ids, |xs|)
    ensures multiset(r) == multiset(ids) + multiset{k}
    ensures InBounds(r, |xs|)
  {
    if |ids| == 0 then [k]
    else if xs[ids[0]] <= xs[k] then [k] + ids
    else
      var rest := Insert(xs, k, ids[1..]);
      assert ids == [ids[0]] + ids[1..];
      [ids[0]] + rest
  }

  /** Inserting keeps every score under a bound that k and the ranking respect. */
  lemma {:induction false} InsertBounded(xs: seq<real>, k: int, ids: seq<int>, b: real)
    requires 0 <= k < |xs| && InBounds(ids, |xs|)
    requires xs[k] <= b && forall p :: 0 <= p < |ids| ==> xs[ids[p]] <= b
    ensures forall m :: 0 <= m < |Insert(xs, k, ids)| ==> xs[Insert(xs, k, ids)[m]] <= b
  {
    if |ids| > 0 && xs[ids[0]] > xs[k] {
      InsertBounded(xs, k, ids[1..], b);
    }
  }

  /** Inserting into a descending ranking gives a descending ranking. */
  lemma {:induction false} InsertSorted(xs: seq<real>, k: int, ids: seq<int>)
    requires 0 <= k < |xs| && NonIncreasingBy(xs, ids)
    ensures NonIncreasingBy(xs, Insert(xs, k, ids))
  {
    if |ids| > 0 && xs[ids[0]] > xs[k] {
      var tail := ids[1..];
      assert NonIncreasingBy(xs, tail);
      InsertSorted(xs, k, tail);
      InsertBounded(xs, k, tail, xs[ids[0]]);
      ConsSorted(xs, ids[0], Insert(xs, k, tail));
    } else if |ids| > 0 {
      ConsSorted(xs, k, ids);
    }
  }

  /** Putting a feature in front of a descending ranking whose scores are all
      at most its own keeps the ranking descending. */
  lemma ConsSorted(xs: seq<real>, x: int, rest: seq<int>)
    requires 0 <= x < |xs| && NonIncreasingBy(xs, rest)
    requires forall m :: 0 <= m < |rest| ==> xs[rest[m]] <= xs[x]
    ensures NonIncreasingBy(xs, [x] + rest)
  {
    var r := [x] + rest;
    forall i, j | 0 <= i < j < |r|
      ensures xs[r[i]] >= xs[r[j]]
    {
      assert r[j] == rest[j - 1];
      if i > 0 {
        assert r[i] == rest[i - 1];
      }
    }
  }

  lemma RangeSnoc(n: nat)
    requires n > 0
    ensures Range(0, n) == Range(0, n - 1) + [n - 1]
  {
  }

  /** The ranking of the first n features. */
  function RankPrefix(xs: seq<real>, n: nat): (r: seq<int>)
    requires n <= |xs|
    ensures multiset(r) == multiset(Range(0, n))
    ensures NonIncreasingBy(xs, r)
  {
    if n == 0 then []
    else
      var prev := RankPrefix(xs, n - 1);
      RankStep(xs, n, prev);
      Insert(xs, n - 1, prev)
  }

  /** Inserting feature n-1 into a ranking of the first n-1 features ranks
      the first n. */
  lemma RankStep(xs: seq<real>, n: nat, prev: seq<int>)
    requires 0 < n <= |xs|
    requires multiset(prev) == multiset(Range(0, n - 1)) && NonIncreasingBy(xs, prev)
    ensures multiset(Insert(xs, n - 1, prev)) == multiset(Range(0, n))
    ensures NonIncreasingBy(xs, Insert(xs, n - 1, prev))
  {
    InsertSorted(xs, n - 1, prev);
    RangeSnoc(n);
  }

  /** argsort()[::-1]: one descending ranking of all features. */
  function ArgsortDesc(xs: seq<real>): (ids: seq<int>)
    ensures DescendingRanking(xs, ids)
    ensures |ids| == |xs|
  {
    var ids := RankPrefix(xs, |xs|);
    assert |ids| == |multiset(ids)| == |multiset(Range(0, |xs|))|;
    ids
  }

  /** The sorted scores xs[ids] are non-increasing, hold the same scores as
      xs, and position j is the score of feature ids[j]. */
  lemma SortedScores(xs: seq<real>, ids: seq<int>)
    requires DescendingRanking(xs, ids)
    ensures InBounds(ids, |xs|)
    ensures var s := Reorder(xs, ids);
      && |s| == |xs|
      && (forall i, j :: 0 <= i < j < |s| ==> s[i] >= s[j])
      && multiset(s) == multiset(xs)
      && forall j :: 0 <= j < |s| ==> s[j] == xs[ids[j]]
  {
    ReorderByPermutation(xs, ids);
    ReorderAt(xs, ids);
    assert |ids| == |multiset(ids)| == |multiset(Range(0, |xs|))|;
  }

  /** Reordering another per-feature list (labels, F-test scores, score
      matrix rows) with the same ranking keeps each entry with its feature:
      position j of every reordered list belongs to feature ids[j], and no
      entry is lost or duplicated. */
  lemma CoReordered<T>(xs: seq<real>, ids: seq<int>, other: seq<T>)
    requires DescendingRanking(xs, ids)
    requires |other| == |xs|
    ensures InBounds(ids, |other|)
    ensures |Reorder(other, ids)| == |other|
    ensures forall j :: 0 <= j < |ids| ==> Reorder(other, ids)[j] == other[ids[j]]
    ensures multiset(Reorder(other, ids)) == multiset(other)
  {
    ReorderByPermutation(other, ids);
    ReorderAt(other, ids);
    assert |ids| == |multiset(ids)| == |multiset(Range(0, |xs|))|;
  }

  /** Reusing one target's ranking for another target does not sort the
      other target's scores: ranking [1.0, 0.5] leaves [0.5, 1.0] ascending. */
  lemma BorrowedRankingNotSorted()
    ensures DescendingRanking([1.0, 0.5], [0, 1])
    ensures Reorder([0.5, 1.0], [0, 1]) == [0.5, 1.0]
    ensures !NonIncreasingBy([0.5, 1.0], [0, 1])
  {
    assert Range(0, 2) == [0, 1];
    assert Reorder([0.5, 1.0], [0, 1]) == [0.5] + Reorder([0.5, 1.0], [1]);
  }
}
