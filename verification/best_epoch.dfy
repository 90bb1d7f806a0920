/** Best-epoch selection from a training log: the rows of the per-epoch
    history whose validation loss equals the smallest validation loss. */
module BestEpoch {
  import opened Outcomes
  import opened Seqs

  /** One row of the training history: epoch number, training loss and
      validation loss. */
  datatype LogRow = LogRow(epoch: int, loss: real, valLoss: real)

  /** The smallest validation loss of the log, None for an empty log. */
  function MinValLoss(log: seq<LogRow>): (m: Option<real>)
    ensures m.None? <==> |log| == 0
    ensures m.Some? ==> forall i :: 0 <= i < |log| ==> m.value <= log[i].valLoss
    ensures m.Some? ==> exists i :: 0 <= i < |log| && log[i].valLoss == m.value
  {
    if |log| == 0 then None
    else
      match MinValLoss(log[1..])
      case None => Some(log[0].valLoss)
      case Some(v) =>
        assert forall i :: 1 <= i < |log| ==> log[i] == log[1..][i - 1];
        if log[0].valLoss <= v then Some(log[0].valLoss)
        else
          var j :| 0 <= j < |log[1..]| && log[1..][j].valLoss == v;
          assert log[j + 1].valLoss == v;
          Some(v)
  }

  /** The positions from `from` on whose validation loss is v: ascending,
      and holding each such position exactly once. */
  function Positions(log: seq<LogRow>, v: real, from: nat): (pos: seq<int>)
    requires from <= |log|
    ensures StrictlyIncreasing(pos) && |pos| <= |log| - from
    ensures forall k :: 0 <= k < |pos| ==> from <= pos[k] < |log| && log[pos[k]].valLoss == v
    ensures forall i :: from <= i < |log| && log[i].valLoss == v ==> i in pos
    decreases |log| - from
  {
    if from == |log| then []
    else
      var rest := Positions(log, v, from + 1);
      if log[from].valLoss == v then [from] + rest else rest
  }

  /** The rows from `from` on whose validation loss is v. */
  function RowsFrom(log: seq<LogRow>, v: real, from: nat): (r: seq<LogRow>)
    requires from <= |log|
    ensures |r| == |Positions(log, v, from)|
    ensures forall k :: 0 <= k < |r| ==> r[k] == log[Positions(log, v, from)[k]]
    decreases |log| - from
  {
    if from == |log| then []
    else
      var rest := RowsFrom(log, v, from + 1);
      if log[from].valLoss == v then
        assert Positions(log, v, from) == [from] + Positions(log, v, from + 1);
        [log[from]] + rest
      else
        assert Positions(log, v, from) == Positions(log, v, from + 1);
        rest
  }

  /** df[val_loss == v]: the boolean filter keeps the rows whose validation
      loss is v, once each and in log order. Row k of the result is the log
      row at the k-th matching position. */
  function RowsWithValLoss(log: seq<LogRow>, v: real): (r: seq<LogRow>)
    ensures var pos := Positions(log, v, 0);
      |r| == |pos| && forall k :: 0 <= k < |r| ==> r[k] == log[pos[k]]
    ensures forall i :: 0 <= i < |r| ==> r[i].valLoss == v && r[i] in log
    ensures forall i :: 0 <= i < |log| && log[i].valLoss == v ==> log[i] in r
    ensures |r| <= |log|
  {
    var r := RowsFrom(log, v, 0);
    var pos := Positions(log, v, 0);
    forall i | 0 <= i < |log| && log[i].valLoss == v
      ensures log[i] in r
    {
      var k :| 0 <= k < |pos| && pos[k] == i;
      assert r[k] == log[i];
    }
    r
  }

  /** The best-epoch rows: those whose validation loss is the minimum. */
  function BestRows(log: seq<LogRow>): (r: seq<LogRow>)
    ensures forall i :: 0 <= i < |r| ==> r[i] in log
    ensures |r| > 0 <==> |log| > 0
  {
    match MinValLoss(log)
    case None => []
    case Some(v) => RowsWithValLoss(log, v)
  }

  /** A row is selected exactly when it is in the log and no row of the log
      has a smaller validation loss; some row is selected whenever the log
      has any row. */
  lemma BestRowsExact(log: seq<LogRow>)
    ensures forall x :: x in BestRows(log) <==>
              x in log && forall i :: 0 <= i < |log| ==> x.valLoss <= log[i].valLoss
    ensures |BestRows(log)| > 0 <==> |log| > 0
    ensures forall i, j :: 0 <= i < |BestRows(log)| && 0 <= j < |BestRows(log)| ==>
              BestRows(log)[i].valLoss == BestRows(log)[j].valLoss
  {
    var m := MinValLoss(log);
    if m.Some? {
      var w :| 0 <= w < |log| && log[w].valLoss == m.value;
      MinimalRows(log, m.value, w);
    }
  }

  /** Filtering on an attained minimum v selects exactly the minimal rows. */
  lemma MinimalRows(log: seq<LogRow>, v: real, w: int)
    requires 0 <= w < |log| && log[w].valLoss == v
    requires forall i :: 0 <= i < |log| ==> v <= log[i].valLoss
    ensures forall x :: x in RowsWithValLoss(log, v) <==>
              x in log && forall i :: 0 <= i < |log| ==> x.valLoss <= log[i].valLoss
  {
    var r := RowsWithValLoss(log, v);
    forall x | x in log && (forall i :: 0 <= i < |log| ==> x.valLoss <= log[i].valLoss)
      ensures x in r
    {
      var k :| 0 <= k < |log| && log[k] == x;
      assert x.valLoss <= log[w].valLoss;
    }
  }

  /** min_epochs, min_val_loss and min_train_loss: the columns of the
      best-epoch rows. */
  datatype BestStats = BestStats(epochs: seq<int>, valLoss: seq<real>, trainLoss: seq<real>)

  /** Entry i of each column belongs to best row i, so the three columns
      stay aligned; every validation loss listed is the minimum, and every
      epoch that reaches the minimum is listed. */
  function BestEpochs(log: seq<LogRow>): (b: BestStats)
    ensures var r := BestRows(log);
      && |b.epochs| == |b.valLoss| == |b.trainLoss| == |r|
      && forall i :: 0 <= i < |r| ==>
           b.epochs[i] == r[i].epoch && b.valLoss[i] == r[i].valLoss && b.trainLoss[i] == r[i].loss
    ensures forall i, j :: 0 <= i < |b.valLoss| && 0 <= j < |log| ==> b.valLoss[i] <= log[j].valLoss
    ensures forall j :: 0 <= j < |log| && (forall i :: 0 <= i < |log| ==> log[j].valLoss <= log[i].valLoss) ==>
              log[j].epoch in b.epochs
    ensures |b.epochs| > 0 <==> |log| > 0
  {
    var r := BestRows(log);
    var b := BestStats(EpochColumn(r), ValLossColumn(r), LossColumn(r));
    assert |b.epochs| > 0 <==> |log| > 0;
    ColumnMinimal(log, b.valLoss);
    MinimalEpochsListed(log);
    b
  }

  /** The validation-loss column of the best rows holds only the minimum. */
  lemma ColumnMinimal(log: seq<LogRow>, c: seq<real>)
    requires c == ValLossColumn(BestRows(log))
    ensures forall i, j :: 0 <= i < |c| && 0 <= j < |log| ==> c[i] <= log[j].valLoss
  {
    BestRowsMinimal(log);
  }

  /** The epoch of every row that reaches the minimum is among the best epochs. */
  lemma MinimalEpochsListed(log: seq<LogRow>)
    ensures forall j :: 0 <= j < |log| && (forall i :: 0 <= i < |log| ==> log[j].valLoss <= log[i].valLoss) ==>
              log[j].epoch in EpochColumn(BestRows(log))
  {
    BestRowsExact(log);
    forall j | 0 <= j < |log| && (forall i :: 0 <= i < |log| ==> log[j].valLoss <= log[i].valLoss)
      ensures log[j].epoch in EpochColumn(BestRows(log))
    {
      ListedEpoch(BestRows(log), log[j]);
    }
  }

  lemma ListedEpoch(rows: seq<LogRow>, x: LogRow)
    requires x in rows
    ensures x.epoch in EpochColumn(rows)
  {
    var k :| 0 <= k < |rows| && rows[k] == x;
    assert EpochColumn(rows)[k] == x.epoch;
  }

  /** Every best row has a validation loss no row of the log goes below. */
  lemma BestRowsMinimal(log: seq<LogRow>)
    ensures forall i, j :: 0 <= i < |BestRows(log)| && 0 <= j < |log| ==> BestRows(log)[i].valLoss <= log[j].valLoss
  {
    BestRowsExact(log);
    var r := BestRows(log);
    forall i, j | 0 <= i < |r| && 0 <= j < |log|
      ensures r[i].valLoss <= log[j].valLoss
    {
      assert r[i] in r;
    }
  }

  /** The columns of some log rows. */
  function EpochColumn(rows: seq<LogRow>): (c: seq<int>)
    ensures |c| == |rows| && forall i :: 0 <= i < |rows| ==> c[i] == rows[i].epoch
  {
    seq(|rows|, i requires 0 <= i < |rows| => rows[i].epoch)
  }

  function ValLossColumn(rows: seq<LogRow>): (c: seq<real>)
    ensures |c| == |rows| && forall i :: 0 <= i < |rows| ==> c[i] == rows[i].valLoss
  {
    seq(|rows|, i requires 0 <= i < |rows| => rows[i].valLoss)
  }

  function LossColumn(rows: seq<LogRow>): (c: seq<real>)
    ensures |c| == |rows| && forall i :: 0 <= i < |rows| ==> c[i] == rows[i].loss
  {
    seq(|rows|, i requires 0 <= i < |rows| => rows[i].loss)
  }
}
