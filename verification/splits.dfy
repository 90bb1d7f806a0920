/** Train/validation/test split of the realizations. The shuffled list of
    realization IDs is an input (the random generator is not modelled); it is
    cut with Python slicing into three consecutive pieces, and the reduced
    training sets are prefixes of the training piece. */
module Splits {
  import opened Seqs

  /** Python's normalisation of a slice bound against a list of length n:
      a negative bound counts from the end, and the result is clamped to 0 .. n. */
  function Clamp(i: int, n: nat): (c: nat)
    ensures c <= n
    ensures 0 <= i <= n ==> c == i
  {
    if i < 0 then (if i + n < 0 then 0 else i + n) else if i > n then n else i
  }

  /** xs[lo:hi] with Python's clamping; an empty list when the bounds cross. */
  function Slice<T>(xs: seq<T>, lo: int, hi: int): (r: seq<T>)
    ensures |r| <= |xs|
    ensures 0 <= lo <= hi <= |xs| ==> |r| == hi - lo && forall k :: 0 <= k < |r| ==> r[k] == xs[lo + k]
    ensures multiset(r) <= multiset(xs)
  {
    var a, b := Clamp(lo, |xs|), Clamp(hi, |xs|);
    if a < b then
      assert xs == xs[..a] + xs[a..b] + xs[b..];
      xs[a..b]
    else []
  }

  /** The three pieces written to the index files. */
  datatype SplitLists = SplitLists(train: seq<int>, val: seq<int>, test: seq<int>)

  /** train = realz[0:num_train], val = realz[num_train:num_train+num_val],
      test = realz[num_train+num_val:]. num_test only names the test file,
      so it is not a parameter. */
  function GetSplits(realz: seq<int>, numTrain: int, numVal: int): (s: SplitLists)
    ensures multiset(s.train) <= multiset(realz) && multiset(s.val) <= multiset(realz)
    ensures multiset(s.test) <= multiset(realz)
    ensures numTrain >= 0 ==> |s.train| == Min(numTrain, |realz|)
  {
    SplitLists(Slice(realz, 0, numTrain),
               Slice(realz, numTrain, numTrain + numVal),
               Slice(realz, numTrain + numVal, |realz|))
  }

  function Min(a: int, b: int): int
  {
    if a <= b then a else b
  }

  /** With non-negative bounds a slice is the stretch between the bounds
      capped at the length. */
  lemma SliceFromStart<T>(xs: seq<T>, lo: int, hi: int)
    requires 0 <= lo && 0 <= hi
    ensures Min(lo, |xs|) <= Min(hi, |xs|) ==> Slice(xs, lo, hi) == xs[Min(lo, |xs|)..Min(hi, |xs|)]
  {
  }

  lemma ThreePieces<T>(xs: seq<T>, a: int, b: int)
    requires 0 <= a <= b <= |xs|
    ensures xs[0..a] + xs[a..b] + xs[b..|xs|] == xs
  {
    assert xs[0..a] + xs[a..b] == xs[..b];
  }

  /** For non-negative counts the pieces concatenate back to the shuffled
      list; train has min(num_train, n) entries, val the next num_val that
      remain, and test everything after them, whatever num_test is. */
  lemma SplitsConcat(realz: seq<int>, numTrain: int, numVal: int)
    requires numTrain >= 0 && numVal >= 0
    ensures var s := GetSplits(realz, numTrain, numVal);
      && s.train + s.val + s.test == realz
      && |s.train| == Min(numTrain, |realz|)
      && |s.val| == Min(numTrain + numVal, |realz|) - Min(numTrain, |realz|)
      && |s.test| == |realz| - Min(numTrain + numVal, |realz|)
  {
    var n := |realz|;
    var a := Min(numTrain, n);
    var b := Min(numTrain + numVal, n);
    var s := GetSplits(realz, numTrain, numVal);
    SliceFromStart(realz, 0, numTrain);
    SliceFromStart(realz, numTrain, numTrain + numVal);
    SliceFromStart(realz, numTrain + numVal, n);
    assert s.train == realz[0..a] && s.val == realz[a..b] && s.test == realz[b..n];
    ThreePieces(realz, a, b);
  }

  /** realz_list is a shuffle of 1 .. num_realz. */
  predicate IsShuffle(realz: seq<int>, numRealz: nat)
  {
    multiset(realz) == multiset(Range(1, numRealz + 1))
  }

  /** A shuffle of 1 .. num_realz has num_realz entries, no repetitions, and
      holds exactly the realizations 1 .. num_realz. */
  lemma ShuffleFacts(realz: seq<int>, numRealz: nat)
    requires IsShuffle(realz, numRealz)
    ensures |realz| == numRealz
    ensures Distinct(realz)
    ensures Elems(realz) == Interval(1, numRealz + 1)
  {
    assert |multiset(realz)| == |multiset(Range(1, numRealz + 1))|;
    RangeIncreasing(1, numRealz + 1);
    PermutationOfDistinct(realz, Range(1, numRealz + 1));
    RangeMembership(1, numRealz + 1);
    forall x
      ensures x in realz <==> x in Range(1, numRealz + 1)
    {
      assert x in realz <==> x in multiset(realz);
      assert x in Range(1, numRealz + 1) <==> x in multiset(Range(1, numRealz + 1));
    }
  }

  /** Pieces of a repetition-free list taken at non-overlapping positions
      share no element. */
  lemma SlicesDisjoint(xs: seq<int>, a: nat, b: nat, c: nat, d: nat)
    requires Distinct(xs) && a <= b <= c <= d <= |xs|
    ensures Elems(xs[a..b]) !! Elems(xs[c..d])
  {
    forall x | x in Elems(xs[a..b])
      ensures x !in Elems(xs[c..d])
    {
      var i :| 0 <= i < b - a && xs[a..b][i] == x;
      if x in xs[c..d] {
        assert false;
      }
    }
  }

  lemma ElemsConcat(x: seq<int>, y: seq<int>, z: seq<int>)
    ensures Elems(x + y + z) == Elems(x) + Elems(y) + Elems(z)
  {
    forall e
      ensures e in x + y + z <==> e in x || e in y || e in z
    {
    }
  }

  /** For a shuffle of 1 .. num_realz the three pieces are pairwise disjoint
      and together hold every realization; when the counts fit, the test
      piece has num_realz - num_train - num_val entries. */
  lemma SplitsPartition(realz: seq<int>, numRealz: nat, numTrain: int, numVal: int)
    requires IsShuffle(realz, numRealz)
    requires numTrain >= 0 && numVal >= 0
    ensures var s := GetSplits(realz, numTrain, numVal);
      && Elems(s.train) !! Elems(s.val) && Elems(s.train) !! Elems(s.test) && Elems(s.val) !! Elems(s.test)
      && Elems(s.train) + Elems(s.val) + Elems(s.test) == Interval(1, numRealz + 1)
    ensures numTrain + numVal <= numRealz ==>
      var s := GetSplits(realz, numTrain, numVal);
      |s.train| == numTrain && |s.val| == numVal && |s.test| == numRealz - numTrain - numVal
  {
    ShuffleFacts(realz, numRealz);
    SplitsConcat(realz, numTrain, numVal);
    var n := |realz|;
    var a := Min(numTrain, n);
    var b := Min(numTrain + numVal, n);
    var s := GetSplits(realz, numTrain, numVal);
    assert s.train == realz[0..a] && s.val == realz[a..b] && s.test == realz[b..n];
    SlicesDisjoint(realz, 0, a, a, b);
    SlicesDisjoint(realz, 0, a, b, n);
    SlicesDisjoint(realz, a, b, b, n);
    ElemsConcat(s.train, s.val, s.test);
  }

  /** The sizes of the reduced training sets: 5, 10, 20, 40 and 60 percent
      of 4078 realizations. */
  const TrainSizes: seq<int> := [204, 408, 816, 1632, 2446]

  /** train_list[0:m] for every reduced size m, smallest first. */
  function TrainPrefixes(train: seq<int>): (r: seq<seq<int>>)
    ensures |r| == |TrainSizes|
  {
    seq(|TrainSizes|, i requires 0 <= i < |TrainSizes| => Slice(train, 0, TrainSizes[i]))
  }

  /** Every reduced training set is a prefix of the full one and of each
      larger reduced set; when the training list has at least 2446 entries
      each reduced set has exactly its nominal size. */
  lemma PrefixesNested(train: seq<int>)
    ensures forall i :: 0 <= i < |TrainSizes| ==> TrainPrefixes(train)[i] <= train
    ensures forall i, j :: 0 <= i <= j < |TrainSizes| ==> TrainPrefixes(train)[i] <= TrainPrefixes(train)[j]
    ensures |train| >= 2446 ==> forall i :: 0 <= i < |TrainSizes| ==> |TrainPrefixes(train)[i]| == TrainSizes[i]
  {
    var ps := TrainPrefixes(train);
    forall i | 0 <= i < |TrainSizes|
      ensures ps[i] == train[..Min(TrainSizes[i], |train|)]
    {
    }
  }
}
