/** Sequence vocabulary shared by the modules: integer ranges, distinctness,
    element sets, numpy-style fancy indexing and reordering by an index list. */
module Seqs {
  import opened Outcomes

  /** The list [lo, lo+1, ..., hi-1], Python's range(lo, hi). */
  function Range(lo: int, hi: int): (r: seq<int>)
    ensures |r| == if lo <= hi then hi - lo else 0
    ensures forall i :: 0 <= i < |r| ==> r[i] == lo + i
  {
    if lo < hi then seq(hi - lo, i => lo + i) else []
  }

  /** The integers lo..hi-1 as a set. */
  function Interval(lo: int, hi: int): (r: set<int>)
    ensures forall k :: k in r <==> lo <= k < hi
  {
    RangeMembership(lo, hi);
    set k | k in Range(lo, hi)
  }

  /** Adjacent intervals join into one. */
  lemma IntervalSplit(lo: int, mid: int, hi: int)
    requires lo <= mid <= hi
    ensures Interval(lo, hi) == Interval(lo, mid) + Interval(mid, hi)
  {
    assert forall k :: k in Interval(lo, hi) <==> k in Interval(lo, mid) || k in Interval(mid, hi);
  }

  lemma RangeMembership(lo: int, hi: int)
    ensures forall k :: k in Range(lo, hi) <==> lo <= k < hi
  {
    var s := Range(lo, hi);
    forall k | lo <= k < hi
      ensures k in s
    {
      assert s[k - lo] == k;
    }
  }

  function Elems<T>(s: seq<T>): set<T>
  {
    set x | x in s
  }

  predicate Distinct<T(==)>(s: seq<T>)
  {
    forall i, j :: 0 <= i < j < |s| ==> s[i] != s[j]
  }

  predicate StrictlyIncreasing(s: seq<int>)
  {
    forall i, j :: 0 <= i < j < |s| ==> s[i] < s[j]
  }

  lemma RangeIncreasing(lo: int, hi: int)
    ensures StrictlyIncreasing(Range(lo, hi))
  {
  }

  /** A value occurs at most once in a sequence without repetitions. */
  lemma {:induction false} DistinctMultiplicity<T>(s: seq<T>, x: T)
    requires Distinct(s)
    ensures multiset(s)[x] <= 1
  {
    if |s| > 0 {
      assert s == [s[0]] + s[1..];
      DistinctMultiplicity(s[1..], x);
      if x == s[0] {
        assert x !in s[1..];
        assert multiset(s[1..])[x] == 0;
      }
    }
  }

  /** A sequence whose multiset is that of a repetition-free sequence has no repetitions. */
  lemma PermutationOfDistinct<T>(s: seq<T>, t: seq<T>)
    requires multiset(s) == multiset(t)
    requires Distinct(t)
    ensures Distinct(s)
  {
    forall i, j | 0 <= i < j < |s|
      ensures s[i] != s[j]
    {
      if s[i] == s[j] {
        var x := s[i];
        assert s == s[..i] + [x] + s[i+1..j] + [x] + s[j+1..];
        assert multiset(s)[x] >= 2;
        DistinctMultiplicity(t, x);
        assert false;
      }
    }
  }

  /** numpy's rule for one entry of a fancy index: -(n as int) <= i < n is valid and a
      negative index counts from the end. */
  function RowOf(n: nat, i: int): (row: int)
  {
    if i < 0 then i + n else i
  }

  predicate ValidIndex(n: nat, i: int)
  {
    -(n as int) <= i < n
  }

  /** rows[idx] for an integer index array: one output row per index entry,
      IndexError when any entry is out of bounds. */
  function TakeRows<T>(rows: seq<T>, idx: seq<int>): (r: Result<seq<T>>)
    ensures r.Success? <==> forall j :: 0 <= j < |idx| ==> ValidIndex(|rows|, idx[j])
    ensures r.Success? ==> |r.value| == |idx|
    ensures r.Success? ==> forall j :: 0 <= j < |idx| ==>
              0 <= RowOf(|rows|, idx[j]) < |rows| && r.value[j] == rows[RowOf(|rows|, idx[j])]
  {
    if |idx| == 0 then Success([])
    else if !ValidIndex(|rows|, idx[0]) then Failure(IndexOutOfRange)
    else
      match TakeRows(rows, idx[1..])
      case Failure(e) => Failure(e)
      case Success(rest) => Success([rows[RowOf(|rows|, idx[0])]] + rest)
  }

  /** Every entry of ids is a position of a sequence of length n. */
  predicate InBounds(ids: seq<int>, n: nat)
  {
    forall j :: 0 <= j < |ids| ==> 0 <= ids[j] < n
  }

  /** xs[ids] for an index array known to be in range (numpy reorder):
      position j of the result is element ids[j] of xs. */
  function Reorder<T>(xs: seq<T>, ids: seq<int>): (r: seq<T>)
    requires InBounds(ids, |xs|)
    ensures |r| == |ids|
  {
    if |ids| == 0 then [] else [xs[ids[0]]] + Reorder(xs, ids[1..])
  }

  lemma {:induction false} ReorderAt<T>(xs: seq<T>, ids: seq<int>)
    requires InBounds(ids, |xs|)
    ensures forall j :: 0 <= j < |ids| ==> Reorder(xs, ids)[j] == xs[ids[j]]
  {
    if |ids| > 0 {
      ReorderAt(xs, ids[1..]);
    }
  }

  lemma {:induction false} ReorderAppend<T>(xs: seq<T>, a: seq<int>, b: seq<int>)
    requires InBounds(a, |xs|) && InBounds(b, |xs|)
    ensures InBounds(a + b, |xs|)
    ensures Reorder(xs, a + b) == Reorder(xs, a) + Reorder(xs, b)
  {
    if |a| > 0 {
      assert (a + b)[1..] == a[1..] + b;
      assert InBounds(a[1..], |xs|);
      ReorderAppend(xs, a[1..], b);
      calc {
        Reorder(xs, a + b);
        [xs[a[0]]] + Reorder(xs, a[1..] + b);
        [xs[a[0]]] + (Reorder(xs, a[1..]) + Reorder(xs, b));
        ([xs[a[0]]] + Reorder(xs, a[1..])) + Reorder(xs, b);
        Reorder(xs, a) + Reorder(xs, b);
      }
    } else {
      assert a + b == b;
    }
  }

  /** Removing the head of a from a and one matching occurrence from b keeps
      the two multisets equal. */
  lemma MatchHead(a: seq<int>, b: seq<int>) returns (i: int)
    requires multiset(a) == multiset(b)
    requires |a| > 0
    ensures 0 <= i < |b| && b[i] == a[0]
    ensures multiset(a[1..]) == multiset(b[..i] + b[i+1..])
  {
    var x := a[0];
    assert x in multiset(b);
    i :| 0 <= i < |b| && b[i] == x;
    assert a == [x] + a[1..];
    assert b == b[..i] + [x] + b[i+1..];
    assert multiset(a[1..]) == multiset(a) - multiset{x};
    assert multiset(b[..i] + b[i+1..]) == multiset(b) - multiset{x};
  }

  /** Reordering by two index lists that are permutations of each other gives
      permutations of each other. */
  lemma MultisetMoveHead<T>(y: T, r: seq<T>, p: seq<T>, q: seq<T>)
    requires multiset(r) == multiset(p + q)
    ensures multiset([y] + r) == multiset(p + ([y] + q))
  {
  }

  lemma {:induction false} ReorderMultiset<T>(xs: seq<T>, a: seq<int>, b: seq<int>)
    requires InBounds(a, |xs|) && InBounds(b, |xs|)
    requires multiset(a) == multiset(b)
    ensures multiset(Reorder(xs, a)) == multiset(Reorder(xs, b))
    decreases |a|
  {
    if |a| == 0 {
      assert |b| == |multiset(b)| == 0;
    } else {
      var i := MatchHead(a, b);
      var pre, post := b[..i], b[i+1..];
      var y := xs[a[0]];
      assert b == pre + ([a[0]] + post);
      assert InBounds(a[1..], |xs|) && InBounds(pre, |xs|) && InBounds(post, |xs|);
      ReorderAppend(xs, pre, post);
      ReorderMultiset(xs, a[1..], pre + post);
      ReorderAppend(xs, [a[0]], post);
      ReorderAppend(xs, pre, [a[0]] + post);
      assert Reorder(xs, [a[0]]) == [y];
      assert Reorder(xs, a) == [y] + Reorder(xs, a[1..]);
      MultisetMoveHead(y, Reorder(xs, a[1..]), Reorder(xs, pre), Reorder(xs, post));
    }
  }

  /** Every entry of a permutation of 0..n-1 is a position below n. */
  lemma PermutationInBounds(ids: seq<int>, n: nat)
    requires multiset(ids) == multiset(Range(0, n))
    ensures InBounds(ids, n)
  {
    forall j | 0 <= j < |ids|
      ensures 0 <= ids[j] < n
    {
      assert ids[j] in multiset(ids);
      assert ids[j] in Range(0, n);
    }
  }

  lemma ReorderIdentity<T>(xs: seq<T>)
    ensures InBounds(Range(0, |xs|), |xs|)
    ensures Reorder(xs, Range(0, |xs|)) == xs
  {
    ReorderAt(xs, Range(0, |xs|));
  }

  /** Reordering by a permutation of 0..n-1 keeps every element with its multiplicity. */
  lemma ReorderByPermutation<T>(xs: seq<T>, ids: seq<int>)
    requires multiset(ids) == multiset(Range(0, |xs|))
    ensures InBounds(ids, |xs|)
    ensures multiset(Reorder(xs, ids)) == multiset(xs)
  {
    PermutationInBounds(ids, |xs|);
    ReorderIdentity(xs);
    ReorderMultiset(xs, ids, Range(0, |xs|));
  }
}
