/** Post-processing of feature-importance scores. The F-test and mutual
    information scorers are parameters (uninterpreted score functions); what
    is modelled is what the scripts do with their output: NaN scores set to
    zero, division by the maximum, the per-time-step score matrix, row sums
    over time steps, and the ranking shared by the three targets. */
module Importance {
  import opened Outcomes
  import opened Seqs
  import opened Ranking

  /** A floating-point score; None stands for NaN. */
  type Score = Option<real>

  /** np.argwhere(np.isnan(f))[:, 0]: the NaN positions, ascending. */
  function NanPositions(f: seq<Score>): (ind: seq<int>)
    ensures StrictlyIncreasing(ind)
    ensures forall j :: 0 <= j < |ind| ==> 0 <= ind[j] < |f| && f[ind[j]].None?
    ensures forall i :: 0 <= i < |f| && f[i].None? ==> i in ind
  {
    if |f| == 0 then []
    else
      var init := NanPositions(f[..|f| - 1]);
      assert forall i :: 0 <= i < |f| - 1 ==> f[..|f| - 1][i] == f[i];
      if f[|f| - 1].None? then init + [|f| - 1] else init
  }

  /** f[ind] = 0 on a copy of f. */
  function AssignZero(f: seq<Score>, ind: seq<int>): (g: seq<Score>)
    ensures |g| == |f|
    ensures forall i :: 0 <= i < |f| ==> g[i] == if i in ind then Some(0.0) else f[i]
  {
    seq(|f|, i requires 0 <= i < |f| => if i in ind then Some(0.0) else f[i])
  }

  /** The scores after the NaN substitution, as plain numbers: every NaN
      becomes 0 and every other score is kept. */
  function NanToZero(f: seq<Score>): (r: seq<real>)
    ensures |r| == |f|
    ensures forall i :: 0 <= i < |f| ==> r[i] == if f[i].None? then 0.0 else f[i].value
  {
    var g := AssignZero(f, NanPositions(f));
    seq(|g|, i requires 0 <= i < |g| => if g[i].Some? then g[i].value else 0.0)
  }

  /** The largest entry; np.max raises on an empty array. */
  function MaxOf(xs: seq<real>): (r: Result<real>)
    ensures r.Failure? <==> |xs| == 0
    ensures r.Success? ==> forall i :: 0 <= i < |xs| ==> xs[i] <= r.value
  {
    if |xs| == 0 then Failure(EmptyArray)
    else if |xs| == 1 then Success(xs[0])
    else
      var m := MaxOf(xs[1..]).value;
      assert forall i :: 1 <= i < |xs| ==> xs[i] == xs[1..][i - 1];
      if xs[0] >= m then Success(xs[0]) else Success(m)
  }

  /** The maximum is one of the entries. */
  lemma {:induction false} MaxAttained(xs: seq<real>)
    requires |xs| > 0
    ensures exists i :: 0 <= i < |xs| && xs[i] == MaxOf(xs).value
  {
    if |xs| > 1 && xs[0] < MaxOf(xs[1..]).value {
      MaxAttained(xs[1..]);
      var j :| 0 <= j < |xs[1..]| && xs[1..][j] == MaxOf(xs[1..]).value;
      assert xs[j + 1] == MaxOf(xs).value;
    } else {
      assert xs[0] == MaxOf(xs).value;
    }
  }

  /** x / np.max(x). A zero maximum gives non-finite values and is reported as
      an error. */
  function Normalise(xs: seq<real>): (r: Result<seq<real>>)
    ensures r.Failure? <==> |xs| == 0 || MaxOf(xs).value == 0.0
    ensures r.Success? ==> |r.value| == |xs| && forall i :: 0 <= i < |xs| ==> r.value[i] * MaxOf(xs).value == xs[i]
  {
    var m :- MaxOf(xs);
    if m == 0.0 then Failure(ZeroMaximum) else Success(Divide(xs, m))
  }

  /** Every entry divided by m: multiplied back by m each gives its entry. */
  function Divide(xs: seq<real>, m: real): (r: seq<real>)
    requires m != 0.0
    ensures |r| == |xs| && forall i :: 0 <= i < |xs| ==> r[i] * m == xs[i]
  {
    seq(|xs|, i requires 0 <= i < |xs| => xs[i] / m)
  }

  // Facts about real division that the solver needs stated for one
  // quotient at a time.

  lemma DivLeOne(x: real, m: real)
    requires 0.0 < m && x <= m
    ensures x / m <= 1.0
  {
  }

  lemma DivNonNeg(x: real, m: real)
    requires 0.0 < m && 0.0 <= x
    ensures 0.0 <= x / m
  {
  }

  lemma DivSelf(m: real)
    requires m != 0.0
    ensures m / m == 1.0
  {
  }

  /** For non-negative scores that are not all zero the normalised scores lie
      in 0 .. 1 and the largest becomes exactly 1; all-zero scores are the
      only failure besides an empty array. */
  lemma NormaliseBounds(xs: seq<real>)
    requires forall i :: 0 <= i < |xs| ==> 0.0 <= xs[i]
    ensures Normalise(xs).Failure? <==> forall i :: 0 <= i < |xs| ==> xs[i] == 0.0
    ensures Normalise(xs).Success? ==>
              (forall i :: 0 <= i < |xs| ==> 0.0 <= Normalise(xs).value[i] <= 1.0)
              && exists i :: 0 <= i < |xs| && Normalise(xs).value[i] == 1.0
  {
    if |xs| > 0 {
      var m := MaxOf(xs).value;
      MaxAttained(xs);
      var j :| 0 <= j < |xs| && xs[j] == m;
      if m != 0.0 {
        var r := Normalise(xs).value;
        forall i | 0 <= i < |xs|
          ensures 0.0 <= r[i] <= 1.0
        {
          DivLeOne(xs[i], m);
          DivNonNeg(xs[i], m);
        }
        DivSelf(m);
        assert r[j] == 1.0;
      }
    }
  }

  /** A score matrix: one row per feature, one column per time step. */
  type Matrix = seq<seq<real>>

  predicate IsShape(m: Matrix, rows: nat, cols: nat)
  {
    |m| == rows && forall p :: 0 <= p < rows ==> |m[p]| == cols
  }

  /** m[:, c] = v. */
  function SetColumn(m: Matrix, c: nat, v: seq<real>): (r: Matrix)
    requires |v| == |m|
    ensures |r| == |m|
    ensures forall p :: 0 <= p < |m| ==> r[p] == if c < |m[p]| then m[p][c := v[p]] else m[p]
  {
    seq(|m|, p requires 0 <= p < |m| => if c < |m[p]| then m[p][c := v[p]] else m[p])
  }

  /** get_ftest_mi_values: a zero num_params x num_ts matrix whose columns
      1 .. num_ts-1 are filled with the score of the features against that
      target column. A score vector of the wrong length cannot be assigned. */
  method FillScores(numParams: nat, numTs: nat, score: int -> seq<real>) returns (r: Result<Matrix>)
    ensures r.Success? <==> forall c :: 1 <= c < numTs ==> |score(c)| == numParams
    ensures r.Success? ==> IsShape(r.value, numParams, numTs)
    ensures r.Success? ==> forall p :: 0 <= p < numParams ==> numTs > 0 ==> r.value[p][0] == 0.0
    ensures r.Success? ==> forall p, c :: 0 <= p < numParams && 1 <= c < numTs ==> r.value[p][c] == score(c)[p]
  {
    var arr: Matrix := seq(numParams, _ => seq(numTs, _ => 0.0));
    var c := 1;
    while c < numTs
      invariant 1 <= c && (c <= numTs || c == 1)
      invariant IsShape(arr, numParams, numTs)
      invariant forall d :: 1 <= d < c ==> |score(d)| == numParams
      invariant forall p :: 0 <= p < numParams ==> numTs > 0 ==> arr[p][0] == 0.0
      invariant forall p, d :: 0 <= p < numParams && 1 <= d < c ==> arr[p][d] == score(d)[p]
    {
      var v := score(c);
      if |v| != numParams {
        return Failure(ShapeMismatch);
      }
      arr := SetColumn(arr, c, v);
      c := c + 1;
    }
    return Success(arr);
  }

  /** All entries of a matrix, row after row. */
  function Flatten(m: Matrix): (r: seq<real>)
    ensures forall p, c :: 0 <= p < |m| && 0 <= c < |m[p]| ==> m[p][c] in r
  {
    if |m| == 0 then []
    else
      var rest := Flatten(m[1..]);
      assert forall p :: 1 <= p < |m| ==> m[p] == m[1..][p - 1];
      m[0] + rest
  }

  /** arr / np.max(arr) over the whole matrix. */
  function NormaliseMatrix(m: Matrix): (r: Result<Matrix>)
    ensures r.Success? ==> |r.value| == |m|
  {
    var mx :- MaxOf(Flatten(m));
    if mx == 0.0 then Failure(ZeroMaximum)
    else Success(seq(|m|, p requires 0 <= p < |m| => seq(|m[p]|, c requires 0 <= c < |m[p]| => m[p][c] / mx)))
  }

  /** n has the shape of m, and each entry of n is the entry of m divided by
      mx and lies in 0 .. 1. */
  predicate ScaledBy(n: Matrix, m: Matrix, mx: real)
  {
    |n| == |m|
    && (forall p :: 0 <= p < |m| ==> |n[p]| == |m[p]|)
    && forall p, c :: 0 <= p < |m| && 0 <= c < |m[p]| && c < |n[p]| ==>
         0.0 <= n[p][c] <= 1.0 && n[p][c] * mx == m[p][c]
  }

  /** For non-negative scores every entry of the normalised matrix lies in
      0 .. 1 and is the original entry divided by one common positive factor. */
  lemma NormaliseMatrixBounds(m: Matrix)
    requires forall p, c :: 0 <= p < |m| && 0 <= c < |m[p]| ==> 0.0 <= m[p][c]
    ensures NormaliseMatrix(m).Success? ==>
              MaxOf(Flatten(m)).value > 0.0 && ScaledBy(NormaliseMatrix(m).value, m, MaxOf(Flatten(m)).value)
  {
    if NormaliseMatrix(m).Success? {
      var flat := Flatten(m);
      var mx := MaxOf(flat).value;
      assert mx > 0.0 by {
        MaxNonNeg(m, flat, mx);
      }
      var n := NormaliseMatrix(m).value;
      assert forall p, c :: 0 <= p < |m| && 0 <= c < |m[p]| ==> m[p][c] <= mx by {
        forall p, c | 0 <= p < |m| && 0 <= c < |m[p]|
          ensures m[p][c] <= mx
        {
          assert m[p][c] in flat;
        }
      }
      ScaledMatrix(m, mx, n);
    }
  }

  lemma ScaledMatrix(m: Matrix, mx: real, n: Matrix)
    requires mx > 0.0
    requires forall p, c :: 0 <= p < |m| && 0 <= c < |m[p]| ==> 0.0 <= m[p][c] <= mx
    requires n == seq(|m|, p requires 0 <= p < |m| => seq(|m[p]|, c requires 0 <= c < |m[p]| => m[p][c] / mx))
    ensures ScaledBy(n, m, mx)
  {
  }

  /** The maximum of a non-empty non-negative matrix is non-negative. */
  lemma MaxNonNeg(m: Matrix, flat: seq<real>, mx: real)
    requires forall p, c :: 0 <= p < |m| && 0 <= c < |m[p]| ==> 0.0 <= m[p][c]
    requires flat == Flatten(m) && MaxOf(flat) == Success(mx) && mx != 0.0
    ensures mx > 0.0
  {
    MaxAttained(flat);
    var j :| 0 <= j < |flat| && flat[j] == mx;
    FlattenFrom(m, j);
  }

  /** Every entry of the flattened matrix comes from some row. */
  lemma {:induction false} FlattenFrom(m: Matrix, k: nat)
    requires k < |Flatten(m)|
    ensures exists p, c :: 0 <= p < |m| && 0 <= c < |m[p]| && m[p][c] == Flatten(m)[k]
  {
    if k < |m[0]| {
      assert Flatten(m)[k] == m[0][k];
    } else {
      FlattenFrom(m[1..], k - |m[0]|);
      var p, c :| 0 <= p < |m[1..]| && 0 <= c < |m[1..][p]| && m[1..][p][c] == Flatten(m[1..])[k - |m[0]|];
      assert m[p + 1][c] == Flatten(m)[k];
    }
  }

  function Sum(xs: seq<real>): real
  {
    if |xs| == 0 then 0.0 else xs[0] + Sum(xs[1..])
  }

  lemma {:induction false} SumNonNeg(xs: seq<real>)
    requires forall i :: 0 <= i < |xs| ==> 0.0 <= xs[i]
    ensures 0.0 <= Sum(xs)
  {
    if |xs| > 0 {
      SumNonNeg(xs[1..]);
    }
  }

  /** np.sum(arr, axis = 1): one total per feature over all time steps. */
  function RowSums(m: Matrix): (r: seq<real>)
    ensures |r| == |m|
    ensures forall p :: 0 <= p < |m| ==> r[p] == Sum(m[p])
  {
    seq(|m|, p requires 0 <= p < |m| => Sum(m[p]))
  }

  /** The aggregate importance of each feature: its row sum divided by the
      largest row sum. */
  function Aggregate(m: Matrix): (r: Result<seq<real>>)
    ensures r.Failure? <==> |m| == 0 || MaxOf(RowSums(m)).value == 0.0
    ensures r.Success? ==> |r.value| == |m|
                           && forall p :: 0 <= p < |m| ==> r.value[p] == Sum(m[p]) / MaxOf(RowSums(m)).value
  {
    Normalise(RowSums(m))
  }

  /** For non-negative scores the aggregate importances lie in 0 .. 1 and the
      top feature scores exactly 1. */
  lemma AggregateTopIsOne(m: Matrix)
    requires forall p, c :: 0 <= p < |m| && 0 <= c < |m[p]| ==> 0.0 <= m[p][c]
    ensures Aggregate(m).Success? ==>
              |Aggregate(m).value| == |m|
              && (forall p :: 0 <= p < |m| ==> 0.0 <= Aggregate(m).value[p] <= 1.0)
              && exists p :: 0 <= p < |m| && Aggregate(m).value[p] == 1.0
  {
    var sums := RowSums(m);
    forall p | 0 <= p < |m|
      ensures 0.0 <= sums[p]
    {
      SumNonNeg(m[p]);
    }
    NormaliseBounds(sums);
  }

  /** The three targets ranked with the first target's ranking: for every
      descending ranking of the first target's aggregate scores, the
      reordered aggregate scores and score-matrix rows of each target keep
      every feature's entries together under the same label. */
  lemma SharedRanking(hpro: seq<real>, pout: seq<real>, doutRows: Matrix, labels: seq<string>, ids: seq<int>)
    requires DescendingRanking(hpro, ids)
    requires |pout| == |hpro| && |doutRows| == |hpro| && |labels| == |hpro|
    ensures InBounds(ids, |hpro|)
    ensures forall i, j :: 0 <= i < j < |ids| ==> Reorder(hpro, ids)[i] >= Reorder(hpro, ids)[j]
    ensures |Reorder(pout, ids)| == |Reorder(doutRows, ids)| == |Reorder(labels, ids)| == |hpro|
    ensures forall j :: 0 <= j < |ids| ==>
              Reorder(labels, ids)[j] == labels[ids[j]]
              && Reorder(pout, ids)[j] == pout[ids[j]]
              && Reorder(doutRows, ids)[j] == doutRows[ids[j]]
    ensures multiset(Reorder(pout, ids)) == multiset(pout)
    ensures multiset(Reorder(doutRows, ids)) == multiset(doutRows)
  {
    SortedScores(hpro, ids);
    CoReordered(hpro, ids, pout);
    CoReordered(hpro, ids, doutRows);
    CoReordered(hpro, ids, labels);
  }

  // ---------------------------------------------------------------------------
  // the two scripts end to end

  /** What the NPV script keeps for plotting: the MI ranking, and the MI
      scores, feature labels and F-test scores in ranked order. */
  datatype RankedScores = RankedScores(ids: seq<int>, mi: seq<real>, labels: seq<string>, fTest: seq<real>)

  /** The NPV script: NaN F-statistics set to zero, both score vectors divided
      by their maximum, the features ranked by descending MI, and the MI
      scores, labels and F-test scores reordered with that one ranking. */
  function RankByMi(f: seq<Score>, mi: seq<real>, labels: seq<string>): (r: Result<RankedScores>)
    requires |mi| == |f| && |labels| == |f|
    ensures r.Failure? <==> Normalise(NanToZero(f)).Failure? || Normalise(mi).Failure?
    ensures r.Success? ==>
      var fn := Normalise(NanToZero(f)).value;
      var mn := Normalise(mi).value;
      && DescendingRanking(mn, r.value.ids)
      && |r.value.ids| == |r.value.mi| == |r.value.labels| == |r.value.fTest| == |f|
      && (forall i, j :: 0 <= i < j < |f| ==> r.value.mi[i] >= r.value.mi[j])
      && forall j :: 0 <= j < |f| ==>
           0 <= r.value.ids[j] < |f|
           && r.value.mi[j] == mn[r.value.ids[j]]
           && r.value.labels[j] == labels[r.value.ids[j]]
           && r.value.fTest[j] == fn[r.value.ids[j]]
  {
    var fn :- Normalise(NanToZero(f));
    var mn :- Normalise(mi);
    var ids := ArgsortDesc(mn);
    SortedScores(mn, ids);
    CoReordered(mn, ids, labels);
    CoReordered(mn, ids, fn);
    Success(RankedScores(ids, Reorder(mn, ids), Reorder(labels, ids), Reorder(fn, ids)))
  }

  /** The per-time-step matrices of one target after division by their
      global maximum, and the aggregate score of each feature. */
  datatype TargetScores = TargetScores(fArr: Matrix, miArr: Matrix, f: seq<real>, mi: seq<real>)

  /** One target of the time-series script: both score matrices divided by
      their maximum, then each feature's row sum divided by the largest. */
  function ScoreTarget(fRaw: Matrix, miRaw: Matrix): (r: Result<TargetScores>)
    ensures r.Success? ==> |r.value.fArr| == |fRaw| && |r.value.miArr| == |miRaw|
  {
    var fArr :- NormaliseMatrix(fRaw);
    var miArr :- NormaliseMatrix(miRaw);
    var f :- Aggregate(fArr);
    var mi :- Aggregate(miArr);
    Success(TargetScores(fArr, miArr, f, mi))
  }

  /** For non-negative raw scores every normalised matrix entry lies in
      0 .. 1, every aggregate lies in 0 .. 1, and the top feature of each
      aggregate scores exactly 1. */
  lemma ScoreTargetBounds(fRaw: Matrix, miRaw: Matrix)
    requires forall p, c :: 0 <= p < |fRaw| && 0 <= c < |fRaw[p]| ==> 0.0 <= fRaw[p][c]
    requires forall p, c :: 0 <= p < |miRaw| && 0 <= c < |miRaw[p]| ==> 0.0 <= miRaw[p][c]
    ensures ScoreTarget(fRaw, miRaw).Success? ==>
      var t := ScoreTarget(fRaw, miRaw).value;
      && Bounded(t.fArr) && Bounded(t.miArr)
      && |t.f| == |fRaw| && |t.mi| == |miRaw|
      && (forall p :: 0 <= p < |t.f| ==> 0.0 <= t.f[p] <= 1.0)
      && (forall p :: 0 <= p < |t.mi| ==> 0.0 <= t.mi[p] <= 1.0)
      && (exists p :: 0 <= p < |t.f| && t.f[p] == 1.0)
      && (exists p :: 0 <= p < |t.mi| && t.mi[p] == 1.0)
  {
    if ScoreTarget(fRaw, miRaw).Success? {
      var fArr := NormaliseMatrix(fRaw).value;
      var miArr := NormaliseMatrix(miRaw).value;
      NormaliseMatrixBounds(fRaw);
      NormaliseMatrixBounds(miRaw);
      ScaledBounded(fArr, fRaw, MaxOf(Flatten(fRaw)).value);
      ScaledBounded(miArr, miRaw, MaxOf(Flatten(miRaw)).value);
      AggregateTopIsOne(fArr);
      AggregateTopIsOne(miArr);
    }
  }

  /** Every entry of a matrix lies in 0 .. 1. */
  predicate Bounded(m: Matrix)
  {
    forall p, c :: 0 <= p < |m| && 0 <= c < |m[p]| ==> 0.0 <= m[p][c] <= 1.0
  }

  lemma ScaledBounded(n: Matrix, m: Matrix, mx: real)
    requires ScaledBy(n, m, mx)
    ensures Bounded(n)
  {
    forall p, c | 0 <= p < |n| && 0 <= c < |n[p]|
      ensures 0.0 <= n[p][c] <= 1.0
    {
      assert |n[p]| == |m[p]|;
    }
  }
}
