/** The reward side of route prediction: the pre-filtering that
    `calc_reinforce_rewards` applies before scoring (`filter_len`, then the
    cleaning of every predicted route), the scoring itself with the three
    metric functions given as parameters, and `get_log_prob_mask`. */
module Reward {
  import opened Seqs

  /** The samples `filter_len` keeps: true length within `[1, max_task_num]`. */
  function LenKept(labelLen: seq<int>, maxTaskNum: int): seq<nat>
  {
    Where(labelLen, l => 1 <= l <= maxTaskNum)
  }

  /** Sample `i` is kept exactly when `1 <= labelLen[i] <= maxTaskNum`, and
      the kept samples keep their order. */
  lemma LenKeptSpec(labelLen: seq<int>, maxTaskNum: int)
    ensures var r := LenKept(labelLen, maxTaskNum);
      && (forall i :: i in r <==> 0 <= i < |labelLen| && 1 <= labelLen[i] <= maxTaskNum)
      && Increasing(r)
  {
    WhereSpec(labelLen, l => 1 <= l <= maxTaskNum);
  }

  /** `field` has a row at every position `filter_len` keeps. */
  ghost predicate PresentAtLenKept<T>(field: seq<T>, labelLen: seq<int>, maxTaskNum: int)
  {
    forall i :: 0 <= i < |labelLen| && 1 <= labelLen[i] <= maxTaskNum ==> i < |field|
  }

  /** One loop step of `filter_len` for one field. */
  lemma LenKeptStep<T>(out: seq<T>, field: seq<T>, labelLen: seq<int>, maxTaskNum: int, i: nat)
    requires i < |labelLen| && PresentAtLenKept(field, labelLen, maxTaskNum)
    requires InBounds(field, LenKept(labelLen[..i], maxTaskNum))
    requires out == Gather(field, LenKept(labelLen[..i], maxTaskNum))
    ensures 1 <= labelLen[i] <= maxTaskNum ==> i < |field|
    ensures InBounds(field, LenKept(labelLen[..i + 1], maxTaskNum))
    ensures out + (if 1 <= labelLen[i] <= maxTaskNum then [field[i]] else []) ==
            Gather(field, LenKept(labelLen[..i + 1], maxTaskNum))
  {
    var keep := LenKept(labelLen[..i], maxTaskNum);
    WhereSnoc(labelLen, l => 1 <= l <= maxTaskNum, i);
    if 1 <= labelLen[i] <= maxTaskNum {
      GatherSnoc(field, keep, i);
    }
  }

  /** `filter_len`: predictions, labels and lengths restricted to the samples
      whose true length lies in `[1, max_task_num]`, in their original order. */
  method FilterLen(prediction: seq<seq<int>>, labels: seq<seq<int>>, labelLen: seq<int>, maxTaskNum: int)
    returns (predF: seq<seq<int>>, labelF: seq<seq<int>>, labelLenF: seq<int>)
    requires PresentAtLenKept(prediction, labelLen, maxTaskNum)
    requires PresentAtLenKept(labels, labelLen, maxTaskNum)
    ensures var keep := LenKept(labelLen, maxTaskNum);
      && InBounds(prediction, keep) && InBounds(labels, keep) && InBounds(labelLen, keep)
      && predF == Gather(prediction, keep)
      && labelF == Gather(labels, keep)
      && labelLenF == Gather(labelLen, keep)
  {
    predF, labelF, labelLenF := [], [], [];
    var i := 0;
    while i < |labelLen|
      invariant 0 <= i <= |labelLen|
      invariant InBounds(prediction, LenKept(labelLen[..i], maxTaskNum))
      invariant InBounds(labels, LenKept(labelLen[..i], maxTaskNum))
      invariant InBounds(labelLen, LenKept(labelLen[..i], maxTaskNum))
      invariant predF == Gather(prediction, LenKept(labelLen[..i], maxTaskNum))
      invariant labelF == Gather(labels, LenKept(labelLen[..i], maxTaskNum))
      invariant labelLenF == Gather(labelLen, LenKept(labelLen[..i], maxTaskNum))
    {
      LenKeptStep(predF, prediction, labelLen, maxTaskNum, i);
      LenKeptStep(labelF, labels, labelLen, maxTaskNum, i);
      LenKeptStep(labelLenF, labelLen, labelLen, maxTaskNum, i);
      if 1 <= labelLen[i] <= maxTaskNum {
        predF := predF + [prediction[i]];
        labelF := labelF + [labels[i]];
        labelLenF := labelLenF + [labelLen[i]];
      }
      i := i + 1;
    }
    assert labelLen[..i] == labelLen;
  }

  /** A route cleaned against the width of the first route: the entries
      below `width - 1`, in order and with repeats. */
  function Cleaned(route: seq<int>, width: int): (r: seq<int>)
    ensures forall x :: multiset(r)[x] == if x < width - 1 then multiset(route)[x] else 0
    ensures |r| <= |route|
  {
    FilterCounts(route, x => x < width - 1);
    Filter(route, x => x < width - 1)
  }

  /** A cleaned route is the subsequence of the route at the increasing
      positions whose entry lies below `width - 1`. */
  lemma CleanedKeepsOrder(route: seq<int>, width: int)
    ensures var w := Where(route, x => x < width - 1);
      && Increasing(w)
      && (forall i :: i in w <==> 0 <= i < |route| && route[i] < width - 1)
      && InBounds(route, w)
      && Cleaned(route, width) == Gather(route, w)
  {
    WhereSpec(route, x => x < width - 1);
    FilterIsGatherWhere(route, x => x < width - 1);
  }

  /** Filtering by membership in the set of the route's entries below
      `width - 1`, as the source does, is the same as `Cleaned`. */
  lemma CleanedBySet(route: seq<int>, width: int, input: set<int>)
    requires input == set x | x in route && x < width - 1
    ensures Filter(route, x => x in input) == Cleaned(route, width)
  {
    FilterAgree(route, x => x in input, x => x < width - 1);
  }

  /** The cleaning loop: every route keeps, in order and with repeats, the
      entries below `len(prediction[0]) - 1`. The source first collects those
      entries into a set and then filters the route by membership. */
  method CleanPredictions(prediction: seq<seq<int>>) returns (pred: seq<seq<int>>)
    ensures |pred| == |prediction|
    ensures forall k :: 0 <= k < |prediction| ==> pred[k] == Cleaned(prediction[k], |prediction[0]|)
  {
    pred := [];
    var i := 0;
    while i < |prediction|
      invariant 0 <= i <= |prediction| && |pred| == i
      invariant forall k :: 0 <= k < i ==> pred[k] == Cleaned(prediction[k], |prediction[0]|)
    {
      var p := prediction[i];
      var input := set x | x in p && x < |prediction[0]| - 1;
      var tmp := Filter(p, x => x in input);
      CleanedBySet(p, |prediction[0]|, input);
      pred := pred + [tmp];
      i := i + 1;
    }
  }

  /** Python's `s[:v]`. */
  function Prefix(s: seq<int>, v: int): (r: seq<int>)
    ensures r <= s
    ensures 0 <= v <= |s| ==> |r| == v
    ensures v >= |s| ==> r == s
  {
    s[..SliceEnd(v, |s|)]
  }

  /** The number of leading positions `route_acc` compares. */
  const AccTopK: int := 2 + 1

  /** `calc_reinforce_rewards` with the three metrics of `utils.eval` as
      parameters (`locationDeviation` stands for the 'square' penalty). For
      every sample that `filter_len` keeps, in order, the three rewards are
      the metrics of its cleaned route, its labels and its length, where the
      cleaning bound comes from the first kept route. */
  method CalcReinforceRewards(prediction: seq<seq<int>>, labels: seq<seq<int>>, labelLen: seq<int>,
                              maxTaskNum: int,
                              kendallRankCorrelation: (seq<int>, seq<int>, int) -> real,
                              locationDeviation: (seq<int>, seq<int>, int) -> real,
                              routeAcc: (seq<int>, seq<int>, int) -> real)
    returns (rKrc: seq<real>, rLsd: seq<real>, rAcc3: seq<real>)
    requires PresentAtLenKept(prediction, labelLen, maxTaskNum)
    requires PresentAtLenKept(labels, labelLen, maxTaskNum)
    ensures var keep := LenKept(labelLen, maxTaskNum);
      && |rKrc| == |keep| && |rLsd| == |keep| && |rAcc3| == |keep|
      && InBounds(prediction, keep) && InBounds(labels, keep) && InBounds(labelLen, keep)
      && forall j :: 0 <= j < |keep| ==>
           var route := Cleaned(prediction[keep[j]], |prediction[keep[0]]|);
           && rKrc[j] == kendallRankCorrelation(route, labels[keep[j]], labelLen[keep[j]])
           && rLsd[j] == locationDeviation(route, labels[keep[j]], labelLen[keep[j]])
           && rAcc3[j] == routeAcc(route, Prefix(labels[keep[j]], labelLen[keep[j]]), AccTopK)
  {
    var predF, labelF, labelLenF := FilterLen(prediction, labels, labelLen, maxTaskNum);
    var pred := CleanPredictions(predF);
    rKrc := seq(|pred|, j requires 0 <= j < |pred| && j < |labelF| && j < |labelLenF| =>
                kendallRankCorrelation(pred[j], labelF[j], labelLenF[j]));
    rLsd := seq(|pred|, j requires 0 <= j < |pred| && j < |labelF| && j < |labelLenF| =>
                locationDeviation(pred[j], labelF[j], labelLenF[j]));
    rAcc3 := seq(|pred|, j requires 0 <= j < |pred| && j < |labelF| && j < |labelLenF| =>
                 routeAcc(pred[j], Prefix(labelF[j], labelLenF[j]), AccTopK));
  }

  /** The end of the Python slice `[:v]` over a row of length `len`: a
      negative `v` counts from the end, and the end is clamped to the row. */
  function SliceEnd(v: int, len: nat): (e: nat)
    ensures e <= len
    ensures 0 <= v <= len ==> e == v
    ensures v >= len ==> e == len
    ensures v < 0 && len + v >= 0 ==> e == len + v
    ensures v < 0 && len + v < 0 ==> e == 0
  {
    if v >= 0 then (if v < len then v else len)
    else if len + v > 0 then len + v else 0
  }

  /** `get_log_prob_mask`: an `N x max_task_num` array of zeros in which row
      `i` has ones over `[:pred_len[i]]`; for a non-negative length the ones
      are exactly the positions below it. */
  method GetLogProbMask(predLen: seq<int>, maxTaskNum: nat) returns (mask: array2<real>)
    ensures fresh(mask)
    ensures mask.Length0 == |predLen| && mask.Length1 == maxTaskNum
    ensures forall i, j :: 0 <= i < |predLen| && 0 <= j < maxTaskNum ==>
      mask[i, j] == if j < SliceEnd(predLen[i], maxTaskNum) then 1.0 else 0.0
    ensures forall i, j :: 0 <= i < |predLen| && 0 <= j < maxTaskNum && predLen[i] >= 0 ==>
      (mask[i, j] == 1.0 <==> j < predLen[i])
  {
    mask := new real[|predLen|, maxTaskNum]((i, j) => 0.0);
    var i := 0;
    while i < |predLen|
      invariant 0 <= i <= |predLen|
      invariant forall r, c :: 0 <= r < i && 0 <= c < maxTaskNum ==>
        mask[r, c] == if c < SliceEnd(predLen[r], maxTaskNum) then 1.0 else 0.0
      invariant forall r, c :: i <= r < |predLen| && 0 <= c < maxTaskNum ==> mask[r, c] == 0.0
    {
      var validLen := predLen[i];
      var end := SliceEnd(validLen, maxTaskNum);
      var j := 0;
      while j < end
        invariant 0 <= j <= end
        invariant forall r, c :: 0 <= r < i && 0 <= c < maxTaskNum ==>
          mask[r, c] == if c < SliceEnd(predLen[r], maxTaskNum) then 1.0 else 0.0
        invariant forall c :: 0 <= c < maxTaskNum ==> mask[i, c] == if c < j then 1.0 else 0.0
        invariant forall r, c :: i < r < |predLen| && 0 <= c < maxTaskNum ==> mask[r, c] == 0.0
      {
        mask[i, j] := 1.0;
        j := j + 1;
      }
      i := i + 1;
    }
  }
}
