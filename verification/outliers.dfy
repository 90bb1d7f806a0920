/** Outlier filtering and row gathering. Realization IDs are 1-based and
    select rows id-1 of every data array; within a split, the positions
    whose scaled NPV is at most -1 are neglected and the rest kept; every
    array of a split is indexed with the same list of positions. */
module Outliers {
  import opened Outcomes
  import opened Seqs

  /** The positions of a split whose scaled NPV is an outlier (at most -1). */
  function Outlying(npv: seq<real>): (s: set<int>)
    ensures forall i :: i in s <==> 0 <= i < |npv| && npv[i] <= -1.0
  {
    set i | 0 <= i < |npv| && npv[i] <= -1.0
  }

  /** The loop with a running counter that appends each outlying position. */
  method NeglectList(npv: seq<real>) returns (neglect: seq<int>)
    ensures StrictlyIncreasing(neglect)
    ensures forall j :: 0 <= j < |neglect| ==> 0 <= neglect[j] < |npv| && npv[neglect[j]] <= -1.0
    ensures Elems(neglect) == Outlying(npv)
  {
    neglect := [];
    var counter := 0;
    while counter < |npv|
      invariant 0 <= counter <= |npv|
      invariant StrictlyIncreasing(neglect)
      invariant forall j :: 0 <= j < |neglect| ==> 0 <= neglect[j] < counter && npv[neglect[j]] <= -1.0
      invariant forall i :: 0 <= i < counter && npv[i] <= -1.0 ==> i in neglect
    {
      if npv[counter] <= -1.0 {
        neglect := neglect + [counter];
      }
      counter := counter + 1;
    }
  }

  /** set(range(0, n)) - set(neglect): the positions kept. */
  function KeptSet(n: int, neglect: seq<int>): (s: set<int>)
    ensures forall i :: i in s <==> 0 <= i < n && i !in neglect
  {
    Interval(0, n) - Elems(neglect)
  }

  /** Over a split of n rows the neglected and the kept positions are
      disjoint and together make up 0 .. n-1; a position is kept exactly
      when its NPV is above -1. */
  lemma KeepPartition(npv: seq<real>, neglect: seq<int>)
    requires Elems(neglect) == Outlying(npv)
    ensures KeptSet(|npv|, neglect) !! Elems(neglect)
    ensures KeptSet(|npv|, neglect) + Elems(neglect) == Interval(0, |npv|)
    ensures forall i :: i in KeptSet(|npv|, neglect) <==> 0 <= i < |npv| && npv[i] > -1.0
  {
    assert forall i :: i in neglect <==> i in Outlying(npv);
  }

  /** np.array(list(set)): some list holding every element of the set once;
      the order is not fixed. */
  predicate Enumerates(ids: seq<int>, s: set<int>)
  {
    Distinct(ids) && Elems(ids) == s
  }

  /** Selecting the kept rows of a split: with the kept positions listed in
      any order, each kept row is selected once and every selected NPV is
      above -1. */
  lemma KeptRowsSelected(npv: seq<real>, neglect: seq<int>, kept: seq<int>)
    requires Elems(neglect) == Outlying(npv)
    requires Enumerates(kept, KeptSet(|npv|, neglect))
    ensures TakeRows(npv, kept).Success?
    ensures |TakeRows(npv, kept).value| == |KeptSet(|npv|, neglect)|
    ensures forall j :: 0 <= j < |kept| ==> TakeRows(npv, kept).value[j] > -1.0
  {
    KeepPartition(npv, neglect);
    assert forall j :: 0 <= j < |kept| ==> kept[j] in KeptSet(|npv|, neglect);
    DistinctCard(kept);
  }

  /** A split with fewer rows than the count it is filtered against keeps a
      position past its last row, and selecting with it raises an index error. */
  lemma KeptBeyondRows(npv: seq<real>, n: int, neglect: seq<int>, kept: seq<int>)
    requires n > |npv|
    requires Elems(neglect) == Outlying(npv)
    requires Enumerates(kept, KeptSet(n, neglect))
    ensures TakeRows(npv, kept).Failure?
  {
    assert |npv| in KeptSet(n, neglect);
    var j :| 0 <= j < |kept| && kept[j] == |npv|;
    assert !ValidIndex(|npv|, kept[j]);
  }

  /** A list without repetitions has as many elements as its set. */
  lemma {:induction false} DistinctCard(s: seq<int>)
    requires Distinct(s)
    ensures |Elems(s)| == |s|
  {
    if |s| > 0 {
      DistinctCard(s[1..]);
      assert Elems(s) == {s[0]} + Elems(s[1..]);
      assert s[0] !in Elems(s[1..]);
    }
  }

  /** Targets and features of a split indexed with the same position list:
      both selections succeed or fail together, have one row per position,
      and row j of each comes from the same source row. */
  lemma AlignedSelection<S, T>(q: seq<S>, p: seq<T>, ids: seq<int>)
    requires |q| == |p|
    ensures TakeRows(q, ids).Success? <==> TakeRows(p, ids).Success?
    ensures TakeRows(q, ids).Success? ==>
              |TakeRows(q, ids).value| == |TakeRows(p, ids).value| == |ids|
              && forall j :: 0 <= j < |ids| ==>
                   var row := RowOf(|q|, ids[j]);
                   0 <= row < |q| && TakeRows(q, ids).value[j] == q[row] && TakeRows(p, ids).value[j] == p[row]
  {
  }

  /** The 0-based rows id-1 selected by a list of 1-based realization IDs. */
  function ZeroBased(ids: seq<int>): (rows: seq<int>)
    ensures |rows| == |ids|
    ensures forall r :: 0 <= r < |ids| ==> rows[r] == ids[r] - 1
  {
    seq(|ids|, r requires 0 <= r < |ids| => ids[r] - 1)
  }

  /** x[index_list - 1]: the rows of one split gathered from the full data. */
  function Gather<T>(data: seq<T>, ids: seq<int>): (r: Result<seq<T>>)
    ensures r.Success? <==> forall j :: 0 <= j < |ids| ==> 1 - |data| <= ids[j] <= |data|
    ensures r.Success? ==> |r.value| == |ids|
    ensures r.Success? ==> forall j :: 0 <= j < |ids| ==>
              r.value[j] == data[if ids[j] >= 1 then ids[j] - 1 else ids[j] - 1 + |data|]
  {
    TakeRows(data, ZeroBased(ids))
  }

  /** With IDs in 1 .. n the gather succeeds and row r is source row id - 1. */
  lemma GatherRows<T>(data: seq<T>, ids: seq<int>)
    requires forall r :: 0 <= r < |ids| ==> 1 <= ids[r] <= |data|
    ensures Gather(data, ids).Success?
    ensures |Gather(data, ids).value| == |ids|
    ensures forall r :: 0 <= r < |ids| ==> Gather(data, ids).value[r] == data[ids[r] - 1]
  {
  }

  /** An ID above n raises an index error. */
  lemma GatherOutOfRange<T>(data: seq<T>, ids: seq<int>, r: nat)
    requires r < |ids| && ids[r] > |data|
    ensures Gather(data, ids).Failure?
  {
    assert !ValidIndex(|data|, ZeroBased(ids)[r]);
  }

  /** ID 0 is not rejected: index -1 wraps round to the last row. */
  lemma GatherIdZeroWraps<T>(data: seq<T>, ids: seq<int>, r: nat)
    requires |data| > 0 && r < |ids| && ids[r] == 0
    requires Gather(data, ids).Success?
    ensures Gather(data, ids).value[r] == data[|data| - 1]
  {
  }

  /** The four arrays of a split, gathered with one index list. */
  datatype SplitData<T> = SplitData(p: seq<T>, hpro: seq<T>, pout: seq<T>, npv: seq<T>)

  function GatherSplit<T>(p: seq<T>, hpro: seq<T>, pout: seq<T>, npv: seq<T>, ids: seq<int>): Result<SplitData<T>>
  {
    var gp :- Gather(p, ids);
    var gh :- Gather(hpro, ids);
    var go :- Gather(pout, ids);
    var gn :- Gather(npv, ids);
    Success(SplitData(gp, gh, go, gn))
  }

  /** Row r of the four gathered arrays is the same realization ids[r]: the
      rows of p, hpro, pout and npv stay aligned. */
  lemma SplitAligned<T>(p: seq<T>, hpro: seq<T>, pout: seq<T>, npv: seq<T>, ids: seq<int>)
    requires |p| == |hpro| == |pout| == |npv|
    requires forall r :: 0 <= r < |ids| ==> 1 <= ids[r] <= |p|
    ensures GatherSplit(p, hpro, pout, npv, ids).Success?
    ensures var s := GatherSplit(p, hpro, pout, npv, ids).value;
      |s.p| == |s.hpro| == |s.pout| == |s.npv| == |ids|
      && forall r :: 0 <= r < |ids| ==>
           s.p[r] == p[ids[r] - 1] && s.hpro[r] == hpro[ids[r] - 1]
           && s.pout[r] == pout[ids[r] - 1] && s.npv[r] == npv[ids[r] - 1]
  {
    GatherRows(p, ids);
    GatherRows(hpro, ids);
    GatherRows(pout, ids);
    GatherRows(npv, ids);
  }
}
