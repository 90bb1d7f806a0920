/** Sample pairing for mixup. get_all_unique_pairs lists
    combinations(range(0, n), k) in the order itertools produces them, and
    the two-sample mixup always mixes with weight lam = 0.5. */
module Mixup {
  import opened Seqs

  /** Every tuple with the entry x put in front. */
  function Prepend(x: int, cs: seq<seq<int>>): (r: seq<seq<int>>)
    ensures |r| == |cs|
    ensures forall i :: 0 <= i < |cs| ==> r[i] == [x] + cs[i]
  {
    seq(|cs|, i requires 0 <= i < |cs| => [x] + cs[i])
  }

  /** All entries of s lie in lo .. hi-1. */
  predicate Within(s: seq<int>, lo: int, hi: int)
  {
    forall i :: 0 <= i < |s| ==> lo <= s[i] < hi
  }

  /** combinations(range(lo, hi), k): the tuples that take the first element
      come first, followed by those that skip it. */
  function Comb(lo: int, hi: int, k: nat): (r: seq<seq<int>>)
    ensures forall i :: 0 <= i < |r| ==> |r[i]| == k && StrictlyIncreasing(r[i]) && Within(r[i], lo, hi)
    decreases hi - lo, k
  {
    if k == 0 then [[]]
    else if hi <= lo then []
    else
      var take := Comb(lo + 1, hi, k - 1);
      var skip := Comb(lo + 1, hi, k);
      assert forall i :: 0 <= i < |take| ==> StrictlyIncreasing([lo] + take[i]) by {
        forall i | 0 <= i < |take|
          ensures StrictlyIncreasing([lo] + take[i])
        {
          var s := [lo] + take[i];
          assert forall j :: 1 <= j < |s| ==> s[j] == take[i][j - 1];
        }
      }
      Prepend(lo, take) + skip
  }

  /** The pairs (i, j), i < j, of realizations 0 .. n-1. */
  function UniquePairs(numRealz: int, k: nat): (r: seq<seq<int>>)
    ensures forall i :: 0 <= i < |r| ==> |r[i]| == k && StrictlyIncreasing(r[i]) && Within(r[i], 0, numRealz)
    ensures |r| == Binom(numRealz, k)
  {
    CombCount(0, numRealz, k);
    Comb(0, numRealz, k)
  }

  /** Every strictly increasing k-tuple of entries from lo .. hi-1 is listed. */
  lemma {:induction false} CombComplete(lo: int, hi: int, k: nat, s: seq<int>)
    requires |s| == k && StrictlyIncreasing(s) && Within(s, lo, hi)
    ensures s in Comb(lo, hi, k)
    decreases hi - lo, k
  {
    if k == 0 {
      assert s == [];
    } else {
      assert lo < hi by {
        assert lo <= s[0] < hi;
      }
      if s[0] == lo {
        var tail := s[1..];
        TailAbove(s, lo, hi);
        CombComplete(lo + 1, hi, k - 1, tail);
        TakeListed(lo, hi, k, s);
      } else {
        AllAbove(s, lo, hi);
        CombComplete(lo + 1, hi, k, s);
        assert Comb(lo, hi, k) == Prepend(lo, Comb(lo + 1, hi, k - 1)) + Comb(lo + 1, hi, k);
      }
    }
  }

  /** After a first entry lo, the rest of an increasing tuple lies above lo. */
  lemma TailAbove(s: seq<int>, lo: int, hi: int)
    requires |s| > 0 && s[0] == lo && StrictlyIncreasing(s) && Within(s, lo, hi)
    ensures StrictlyIncreasing(s[1..]) && Within(s[1..], lo + 1, hi)
  {
    forall i | 0 <= i < |s| - 1
      ensures lo + 1 <= s[1..][i] < hi
    {
      assert s[0] < s[i + 1];
    }
  }

  /** An increasing tuple whose first entry is above lo lies above lo. */
  lemma AllAbove(s: seq<int>, lo: int, hi: int)
    requires |s| > 0 && s[0] != lo && StrictlyIncreasing(s) && Within(s, lo, hi)
    ensures Within(s, lo + 1, hi)
  {
    forall i | 0 <= i < |s|
      ensures lo + 1 <= s[i]
    {
      if i > 0 {
        assert s[0] < s[i];
      }
    }
  }

  /** A tuple starting with lo whose tail is listed one level down is listed. */
  lemma TakeListed(lo: int, hi: int, k: nat, s: seq<int>)
    requires k > 0 && lo < hi && |s| == k && s[0] == lo
    requires s[1..] in Comb(lo + 1, hi, k - 1)
    ensures s in Comb(lo, hi, k)
  {
    assert s == [lo] + s[1..];
    PrependListed(lo, Comb(lo + 1, hi, k - 1), Comb(lo + 1, hi, k), s[1..]);
  }

  lemma PrependListed(x: int, take: seq<seq<int>>, skip: seq<seq<int>>, t: seq<int>)
    requires t in take
    ensures [x] + t in Prepend(x, take) + skip
  {
    var j :| 0 <= j < |take| && take[j] == t;
    assert (Prepend(x, take) + skip)[j] == [x] + t;
  }

  /** Python's tuple order: a comes strictly before b. */
  predicate LexLess(a: seq<int>, b: seq<int>)
  {
    |b| > 0 && (|a| == 0 || a[0] < b[0] || (a[0] == b[0] && LexLess(a[1..], b[1..])))
  }

  /** The tuples come out in strictly increasing lexicographic order, so no
      tuple is listed twice. */
  lemma {:induction false} CombOrdered(lo: int, hi: int, k: nat)
    ensures forall i, j :: 0 <= i < j < |Comb(lo, hi, k)| ==> LexLess(Comb(lo, hi, k)[i], Comb(lo, hi, k)[j])
    decreases hi - lo, k
  {
    if k > 0 && lo < hi {
      var take := Comb(lo + 1, hi, k - 1);
      var skip := Comb(lo + 1, hi, k);
      CombOrdered(lo + 1, hi, k - 1);
      CombOrdered(lo + 1, hi, k);
      var r := Comb(lo, hi, k);
      var pre := Prepend(lo, take);
      assert r == pre + skip;
      forall i, j | 0 <= i < j < |r|
        ensures LexLess(r[i], r[j])
      {
        if j < |pre| {
          assert r[i] == [lo] + take[i] && r[j] == [lo] + take[j];
          assert r[i][1..] == take[i] && r[j][1..] == take[j];
        } else if i < |pre| {
          assert r[i] == [lo] + take[i];
          assert r[j] == skip[j - |pre|];
          assert r[j][0] >= lo + 1;
        } else {
          assert r[i] == skip[i - |pre|] && r[j] == skip[j - |pre|];
        }
      }
    }
  }

  /** Lexicographic order is irreflexive, so ordered tuples are distinct. */
  lemma {:induction false} LexLessIrreflexive(a: seq<int>)
    ensures !LexLess(a, a)
  {
    if |a| > 0 {
      LexLessIrreflexive(a[1..]);
    }
  }

  /** No k-subset is listed twice. */
  lemma CombDistinct(lo: int, hi: int, k: nat)
    ensures Distinct(Comb(lo, hi, k))
  {
    CombOrdered(lo, hi, k);
    var r := Comb(lo, hi, k);
    forall i, j | 0 <= i < j < |r|
      ensures r[i] != r[j]
    {
      LexLessIrreflexive(r[i]);
    }
  }

  /** The binomial coefficient by Pascal's rule. */
  function Binom(n: int, k: nat): nat
    decreases if n < 0 then 0 else n
  {
    if k == 0 then 1 else if n <= 0 then 0 else Binom(n - 1, k - 1) + Binom(n - 1, k)
  }

  /** There are nCk tuples. */
  lemma {:induction false} CombCount(lo: int, hi: int, k: nat)
    ensures |Comb(lo, hi, k)| == Binom(hi - lo, k)
    decreases hi - lo, k
  {
    if k > 0 && lo < hi {
      CombCount(lo + 1, hi, k - 1);
      CombCount(lo + 1, hi, k);
    }
  }

  /** nC1 = n. */
  lemma {:induction false} BinomOne(n: nat)
    ensures Binom(n, 1) == n
  {
    if n > 0 {
      BinomOne(n - 1);
    }
  }

  /** nC2 = n(n-1)/2. */
  lemma {:induction false} BinomTwo(n: nat)
    ensures Binom(n, 2) == n * (n - 1) / 2
  {
    if n > 0 {
      BinomTwo(n - 1);
      BinomOne(n - 1);
      assert n * (n - 1) == (n - 1) * (n - 2) + 2 * (n - 1);
    }
  }

  /** nCk = 0 when k > n. */
  lemma {:induction false} BinomAboveN(n: nat, k: nat)
    requires k > n
    ensures Binom(n, k) == 0
  {
    if n > 0 {
      BinomAboveN(n - 1, k - 1);
      BinomAboveN(n - 1, k);
    }
  }

  /** n realizations give n(n-1)/2 pairs, and asking for more entries per
      tuple than there are realizations gives none. */
  lemma PairCount(numRealz: nat, k: nat)
    ensures k == 2 ==> |UniquePairs(numRealz, k)| == numRealz * (numRealz - 1) / 2
    ensures k > numRealz ==> UniquePairs(numRealz, k) == []
  {
    CombCount(0, numRealz, k);
    if k == 2 {
      BinomTwo(numRealz);
    }
    if k > numRealz {
      BinomAboveN(numRealz, k);
    }
  }

  /** The mixup of two samples: the weight is fixed at 0.5 whatever alpha and
      beta are, so the mix is the average of the two samples. */
  datatype Mix = Mix(xLam: seq<real>, yLam: seq<real>, lam: real)

  function MixupTwoSamples(x1: seq<real>, x2: seq<real>, y1: seq<real>, y2: seq<real>, alpha: real, beta: real): (m: Mix)
    requires |x1| == |x2| && |y1| == |y2|
    ensures m.lam == 0.5
    ensures |m.xLam| == |x1| && forall i :: 0 <= i < |x1| ==> m.xLam[i] == (x1[i] + x2[i]) / 2.0
    ensures |m.yLam| == |y1| && forall i :: 0 <= i < |y1| ==> m.yLam[i] == (y1[i] + y2[i]) / 2.0
  {
    var lam := 0.5;
    Mix(seq(|x1|, i requires 0 <= i < |x1| => lam * x1[i] + (1.0 - lam) * x2[i]),
        seq(|y1|, i requires 0 <= i < |y1| => lam * y1[i] + (1.0 - lam) * y2[i]),
        lam)
  }
}
