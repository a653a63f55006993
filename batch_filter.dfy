/** The batch filters that drop the samples whose label row is all padding
    (`get_reinforce_samples`, `get_nonzeros_nrl`, `get_nonzeros_eta`). Each
    walks the rows of the prediction tensor and copies row `i` of every
    parallel field when `label_steps[i].min() != pad_value`. Tensors are
    sequences of rows; the host conversions (`.cpu().numpy().tolist()`,
    `torch.LongTensor`) are identities here. */
module BatchFilter {
  import opened Seqs

  /** `row.min()` of a non-empty integer row. */
  function RowMin(row: seq<int>): (m: int)
    requires |row| > 0
    ensures m in row
    ensures forall j :: 0 <= j < |row| ==> m <= row[j]
  {
    if |row| == 1 then row[0]
    else
      var m' := RowMin(row[..|row| - 1]);
      assert row[..|row| - 1][|row| - 2] in row;
      if row[|row| - 1] < m' then row[|row| - 1] else m'
  }

  /** The test each filter applies to a label row. */
  predicate LabelKept(row: seq<int>, pad: int)
  {
    |row| > 0 && RowMin(row) != pad
  }

  /** The first `n` label rows exist and are non-empty, so `min()` can be
      taken of each. */
  ghost predicate LabelsReadable(labels: seq<seq<int>>, n: nat)
  {
    n <= |labels| && forall i :: 0 <= i < n ==> |labels[i]| > 0
  }

  /** The positions, in increasing order, of the rows among the first `n`
      that the filters keep. */
  function KeptRows(labels: seq<seq<int>>, pad: int, n: nat): seq<nat>
    requires n <= |labels|
  {
    Where(labels[..n], row => LabelKept(row, pad))
  }

  /** Row `i` is kept exactly when its label row passes the test, the kept
      rows are listed in increasing order, and none is kept exactly when no
      label row passes. */
  lemma KeptRowsSpec(labels: seq<seq<int>>, pad: int, n: nat)
    requires n <= |labels|
    ensures var r := KeptRows(labels, pad, n);
      && (forall i :: i in r <==> 0 <= i < n && LabelKept(labels[i], pad))
      && Increasing(r)
      && (r == [] <==> forall i :: 0 <= i < n ==> !LabelKept(labels[i], pad))
  {
    WhereSpec(labels[..n], row => LabelKept(row, pad));
  }

  /** Every row the filter keeps is present in `field`: the filters index a
      parallel field only at the rows they keep. */
  ghost predicate PresentAtKept<T>(field: seq<T>, labels: seq<seq<int>>, pad: int, n: nat)
    requires n <= |labels|
  {
    forall i :: 0 <= i < n && LabelKept(labels[i], pad) ==> i < |field|
  }

  /** The rows of `field` at the positions kept among the first `i` label
      rows, built as the filters build them: one row at a time. */
  function Selected<T>(field: seq<T>, labels: seq<seq<int>>, pad: int, i: nat): seq<T>
    requires i <= |labels| && PresentAtKept(field, labels, pad, i)
  {
    if i == 0 then []
    else
      var init := Selected(field, labels, pad, i - 1);
      if LabelKept(labels[i - 1], pad) then init + [field[i - 1]] else init
  }

  lemma KeptRowsSnoc(labels: seq<seq<int>>, pad: int, i: nat)
    requires i < |labels|
    ensures KeptRows(labels, pad, i + 1) == KeptRows(labels, pad, i) + (if LabelKept(labels[i], pad) then [i] else [])
  {
    WhereSnoc(labels, row => LabelKept(row, pad), i);
  }

  /** Building the rows one at a time gives exactly the rows of `field` at
      the kept positions, in increasing order. */
  lemma {:induction false} SelectedIsGather<T>(field: seq<T>, labels: seq<seq<int>>, pad: int, i: nat)
    requires i <= |labels| && PresentAtKept(field, labels, pad, i)
    ensures InBounds(field, KeptRows(labels, pad, i))
    ensures Selected(field, labels, pad, i) == Gather(field, KeptRows(labels, pad, i))
  {
    if i > 0 {
      SelectedIsGather(field, labels, pad, i - 1);
      var keep := KeptRows(labels, pad, i - 1);
      KeptRowsSnoc(labels, pad, i - 1);
      if LabelKept(labels[i - 1], pad) {
        GatherSnoc(field, keep, i - 1);
      }
    }
  }

  /** A label row made only of padding is dropped; when no entry exceeds the
      pad value (task indices lie below it), a row is kept exactly when it
      holds a real task. */
  lemma {:induction false} KeptIffRealTask(row: seq<int>, pad: int)
    requires |row| > 0
    ensures (forall j :: 0 <= j < |row| ==> row[j] == pad) ==> !LabelKept(row, pad)
    ensures (forall j :: 0 <= j < |row| ==> row[j] <= pad) ==>
      (LabelKept(row, pad) <==> exists j :: 0 <= j < |row| && row[j] != pad)
  {
    var m := RowMin(row);
    var k :| 0 <= k < |row| && row[k] == m;
    if forall j :: 0 <= j < |row| ==> row[j] <= pad {
      if j :| 0 <= j < |row| && row[j] != pad {
        assert m <= row[j] < pad;
      }
    }
  }

  /** A batch whose label rows are all padding keeps nothing. */
  lemma AllPadBatchKeepsNothing(labels: seq<seq<int>>, pad: int, n: nat)
    requires LabelsReadable(labels, n)
    requires forall i, j :: 0 <= i < n && 0 <= j < |labels[i]| ==> labels[i][j] == pad
    ensures KeptRows(labels, pad, n) == []
  {
    forall i | 0 <= i < n
      ensures !LabelKept(labels[i], pad)
    {
      KeptIffRealTask(labels[i], pad);
    }
    KeptRowsSpec(labels, pad, n);
  }

  /** The outputs of `get_nonzeros_nrl`. */
  datatype NrlBatch = NrlBatch(pred: seq<seq<int>>, labels: seq<seq<int>>, labelLen: seq<int>, predLen: seq<int>)

  /** `get_nonzeros_nrl`: every field is the original field restricted to
      the kept rows, in their original order. */
  method GetNonzerosNrl(predSteps: seq<seq<int>>, labelSteps: seq<seq<int>>, labelLen: seq<int>,
                        predLen: seq<int>, pad: int)
    returns (out: NrlBatch)
    requires LabelsReadable(labelSteps, |predSteps|)
    requires PresentAtKept(labelLen, labelSteps, pad, |predSteps|)
    requires PresentAtKept(predLen, labelSteps, pad, |predSteps|)
    ensures var keep := KeptRows(labelSteps, pad, |predSteps|);
      && InBounds(predSteps, keep) && InBounds(labelSteps, keep)
      && InBounds(labelLen, keep) && InBounds(predLen, keep)
      && out.pred == Gather(predSteps, keep)
      && out.labels == Gather(labelSteps, keep)
      && out.labelLen == Gather(labelLen, keep)
      && out.predLen == Gather(predLen, keep)
  {
    var pred, labelList, labelLenList, predLenList := [], [], [], [];
    var n := |predSteps|;
    var i := 0;
    while i < n
      invariant 0 <= i <= n
      invariant pred == Selected(predSteps, labelSteps, pad, i)
      invariant labelList == Selected(labelSteps, labelSteps, pad, i)
      invariant labelLenList == Selected(labelLen, labelSteps, pad, i)
      invariant predLenList == Selected(predLen, labelSteps, pad, i)
    {
      if RowMin(labelSteps[i]) != pad {
        labelList := labelList + [labelSteps[i]];
        pred := pred + [predSteps[i]];
        labelLenList := labelLenList + [labelLen[i]];
        predLenList := predLenList + [predLen[i]];
      }
      i := i + 1;
    }
    SelectedIsGather(predSteps, labelSteps, pad, n);
    SelectedIsGather(labelSteps, labelSteps, pad, n);
    SelectedIsGather(labelLen, labelSteps, pad, n);
    SelectedIsGather(predLen, labelSteps, pad, n);
    out := NrlBatch(pred, labelList, labelLenList, predLenList);
  }

  /** The outputs of `get_nonzeros_eta`; the ETA rows are carried as they
      are. */
  datatype EtaBatch<E> = EtaBatch(pred: seq<seq<int>>, labels: seq<seq<int>>, labelLen: seq<int>,
                                  predLen: seq<int>, etaPred: seq<E>, etaLabel: seq<E>)

  /** `get_nonzeros_eta`: as `get_nonzeros_nrl`, with the predicted and true
      ETA rows sliced by the same rows. */
  method GetNonzerosEta<E>(predSteps: seq<seq<int>>, labelSteps: seq<seq<int>>, labelLen: seq<int>,
                           predLen: seq<int>, etaPred: seq<E>, etaLabel: seq<E>, pad: int)
    returns (out: EtaBatch<E>)
    requires LabelsReadable(labelSteps, |predSteps|)
    requires PresentAtKept(labelLen, labelSteps, pad, |predSteps|)
    requires PresentAtKept(predLen, labelSteps, pad, |predSteps|)
    requires PresentAtKept(etaPred, labelSteps, pad, |predSteps|)
    requires PresentAtKept(etaLabel, labelSteps, pad, |predSteps|)
    ensures var keep := KeptRows(labelSteps, pad, |predSteps|);
      && InBounds(predSteps, keep) && InBounds(labelSteps, keep)
      && InBounds(labelLen, keep) && InBounds(predLen, keep)
      && InBounds(etaPred, keep) && InBounds(etaLabel, keep)
      && out.pred == Gather(predSteps, keep)
      && out.labels == Gather(labelSteps, keep)
      && out.labelLen == Gather(labelLen, keep)
      && out.predLen == Gather(predLen, keep)
      && out.etaPred == Gather(etaPred, keep)
      && out.etaLabel == Gather(etaLabel, keep)
  {
    var pred, labelList, labelLenList, predLenList := [], [], [], [];
    var etaPredList, etaLabelList := [], [];
    var n := |predSteps|;
    var i := 0;
    while i < n
      invariant 0 <= i <= n
      invariant pred == Selected(predSteps, labelSteps, pad, i)
      invariant labelList == Selected(labelSteps, labelSteps, pad, i)
      invariant labelLenList == Selected(labelLen, labelSteps, pad, i)
      invariant predLenList == Selected(predLen, labelSteps, pad, i)
      invariant etaPredList == Selected(etaPred, labelSteps, pad, i)
      invariant etaLabelList == Selected(etaLabel, labelSteps, pad, i)
    {
      if RowMin(labelSteps[i]) != pad {
        labelList := labelList + [labelSteps[i]];
        pred := pred + [predSteps[i]];
        labelLenList := labelLenList + [labelLen[i]];
        predLenList := predLenList + [predLen[i]];
        etaPredList := etaPredList + [etaPred[i]];
        etaLabelList := etaLabelList + [etaLabel[i]];
      }
      i := i + 1;
    }
    SelectedIsGather(predSteps, labelSteps, pad, n);
    SelectedIsGather(labelSteps, labelSteps, pad, n);
    SelectedIsGather(labelLen, labelSteps, pad, n);
    SelectedIsGather(predLen, labelSteps, pad, n);
    SelectedIsGather(etaPred, labelSteps, pad, n);
    SelectedIsGather(etaLabel, labelSteps, pad, n);
    out := EtaBatch(pred, labelList, labelLenList, predLenList, etaPredList, etaLabelList);
  }

  /** The outputs of `get_reinforce_samples`: sampled and greedy routes,
      labels, lengths, the per-sample log-probabilities (of an abstract type
      `P`) and the predicted lengths. */
  datatype ReinforceBatch<P> = ReinforceBatch(pred: seq<seq<int>>, greedyPred: seq<seq<int>>,
                                              labels: seq<seq<int>>, labelLen: seq<int>,
                                              logProbs: seq<P>, predLen: seq<int>)

  /** The loop of `get_reinforce_samples`, which also gives the outputs the
      function is meant to return on every batch, including one with no
      real sample (then every field is empty). */
  method CollectReinforceSamples<P>(predSteps: seq<seq<int>>, greedyPredSteps: seq<seq<int>>,
                                    labelSteps: seq<seq<int>>, labelLen: seq<int>, pad: int,
                                    rlLogProbs: seq<P>, predLenSteps: seq<int>)
    returns (out: ReinforceBatch<P>)
    requires LabelsReadable(labelSteps, |predSteps|)
    requires PresentAtKept(greedyPredSteps, labelSteps, pad, |predSteps|)
    requires PresentAtKept(labelLen, labelSteps, pad, |predSteps|)
    requires PresentAtKept(rlLogProbs, labelSteps, pad, |predSteps|)
    requires PresentAtKept(predLenSteps, labelSteps, pad, |predSteps|)
    ensures var keep := KeptRows(labelSteps, pad, |predSteps|);
      && InBounds(predSteps, keep) && InBounds(greedyPredSteps, keep)
      && InBounds(labelSteps, keep) && InBounds(labelLen, keep)
      && InBounds(rlLogProbs, keep) && InBounds(predLenSteps, keep)
      && out.pred == Gather(predSteps, keep)
      && out.greedyPred == Gather(greedyPredSteps, keep)
      && out.labels == Gather(labelSteps, keep)
      && out.labelLen == Gather(labelLen, keep)
      && out.logProbs == Gather(rlLogProbs, keep)
      && out.predLen == Gather(predLenSteps, keep)
  {
    var pred, greedyPred, labelList, labelLenList := [], [], [], [];
    var logProbsList, predLens := [], [];
    var n := |predSteps|;
    var i := 0;
    while i < n
      invariant 0 <= i <= n
      invariant pred == Selected(predSteps, labelSteps, pad, i)
      invariant greedyPred == Selected(greedyPredSteps, labelSteps, pad, i)
      invariant labelList == Selected(labelSteps, labelSteps, pad, i)
      invariant labelLenList == Selected(labelLen, labelSteps, pad, i)
      invariant logProbsList == Selected(rlLogProbs, labelSteps, pad, i)
      invariant predLens == Selected(predLenSteps, labelSteps, pad, i)
    {
      if RowMin(labelSteps[i]) != pad {
        labelList := labelList + [labelSteps[i]];
        pred := pred + [predSteps[i]];
        greedyPred := greedyPred + [greedyPredSteps[i]];
        labelLenList := labelLenList + [labelLen[i]];
        logProbsList := logProbsList + [rlLogProbs[i]];
        predLens := predLens + [predLenSteps[i]];
      }
      i := i + 1;
    }
    SelectedIsGather(predSteps, labelSteps, pad, n);
    SelectedIsGather(greedyPredSteps, labelSteps, pad, n);
    SelectedIsGather(labelSteps, labelSteps, pad, n);
    SelectedIsGather(labelLen, labelSteps, pad, n);
    SelectedIsGather(rlLogProbs, labelSteps, pad, n);
    SelectedIsGather(predLenSteps, labelSteps, pad, n);
    out := ReinforceBatch(pred, greedyPred, labelList, labelLenList, logProbsList, predLens);
  }

  /** `torch.stack` refuses an empty list of tensors. */
  datatype StackError = EmptyStack

  datatype Result<T, E> = Success(value: T) | Failure(error: E)

  /** `get_reinforce_samples` as written: the rows are collected as above,
      and `torch.stack(rl_log_probs_list)` then fails when no row was kept. */
  method GetReinforceSamples<P>(predSteps: seq<seq<int>>, greedyPredSteps: seq<seq<int>>,
                                labelSteps: seq<seq<int>>, labelLen: seq<int>, pad: int,
                                rlLogProbs: seq<P>, predLenSteps: seq<int>)
    returns (r: Result<ReinforceBatch<P>, StackError>)
    requires LabelsReadable(labelSteps, |predSteps|)
    requires PresentAtKept(greedyPredSteps, labelSteps, pad, |predSteps|)
    requires PresentAtKept(labelLen, labelSteps, pad, |predSteps|)
    requires PresentAtKept(rlLogProbs, labelSteps, pad, |predSteps|)
    requires PresentAtKept(predLenSteps, labelSteps, pad, |predSteps|)
    ensures r.Failure? <==> KeptRows(labelSteps, pad, |predSteps|) == []
    ensures r.Success? ==> var keep := KeptRows(labelSteps, pad, |predSteps|);
      && InBounds(predSteps, keep) && InBounds(greedyPredSteps, keep)
      && InBounds(labelSteps, keep) && InBounds(labelLen, keep)
      && InBounds(rlLogProbs, keep) && InBounds(predLenSteps, keep)
      && r.value.pred == Gather(predSteps, keep)
      && r.value.greedyPred == Gather(greedyPredSteps, keep)
      && r.value.labels == Gather(labelSteps, keep)
      && r.value.labelLen == Gather(labelLen, keep)
      && r.value.logProbs == Gather(rlLogProbs, keep)
      && r.value.predLen == Gather(predLenSteps, keep)
  {
    var out := CollectReinforceSamples(predSteps, greedyPredSteps, labelSteps, labelLen, pad,
                                       rlLogProbs, predLenSteps);
    if |out.logProbs| == 0 {
      r := Failure(EmptyStack);
    } else {
      r := Success(out);
    }
  }

  /** The batch of one sample whose label row is all padding (pad 24): the
      function as written fails, while the collected rows are all empty. */
  method AllPadReinforceBatch() returns (asWritten: Result<ReinforceBatch<int>, StackError>,
                                         intended: ReinforceBatch<int>)
    ensures asWritten.Failure?
    ensures intended == ReinforceBatch([], [], [], [], [], [])
  {
    var preds, labels := [[0, 1, 2]], [[24, 24, 24]];
    AllPadBatchKeepsNothing(labels, 24, |preds|);
    asWritten := GetReinforceSamples(preds, preds, labels, [0], 24, [0], [3]);
    intended := CollectReinforceSamples(preds, preds, labels, [0], 24, [0], [3]);
  }
}
