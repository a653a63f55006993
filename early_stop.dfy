/** Early stopping over a growing history of validation scores: the
    `whether_stop` test and the `EarlyStop` object that training feeds one
    score per epoch. */
module EarlyStopping {

  /** The `mode` string. `whether_stop` negates the history only for
      'minimize', while `EarlyStop.append` looks for a maximum only for
      'maximize', so any other string stops by the maximum and reports the
      minimum. */
  datatype Mode = Maximize | Minimize | OtherMode

  /** Python's `max` over a non-empty list. */
  function Max(s: seq<real>): real
    requires |s| > 0
  {
    if |s| == 1 then s[0]
    else
      var m := Max(s[..|s| - 1]);
      if s[|s| - 1] > m then s[|s| - 1] else m
  }

  /** `max` returns an element that no element exceeds. */
  lemma {:induction false} MaxSpec(s: seq<real>)
    requires |s| > 0
    ensures Max(s) in s && forall i :: 0 <= i < |s| ==> s[i] <= Max(s)
  {
    if |s| > 1 {
      MaxSpec(s[..|s| - 1]);
      assert forall i :: 0 <= i < |s| - 1 ==> s[..|s| - 1][i] == s[i];
    }
  }

  /** Python's `min` over a non-empty list. */
  function Min(s: seq<real>): real
    requires |s| > 0
  {
    if |s| == 1 then s[0]
    else
      var m := Min(s[..|s| - 1]);
      if s[|s| - 1] < m then s[|s| - 1] else m
  }

  /** `min` returns an element that no element undercuts. */
  lemma {:induction false} MinSpec(s: seq<real>)
    requires |s| > 0
    ensures Min(s) in s && forall i :: 0 <= i < |s| ==> Min(s) <= s[i]
  {
    if |s| > 1 {
      MinSpec(s[..|s| - 1]);
      assert forall i :: 0 <= i < |s| - 1 ==> s[..|s| - 1][i] == s[i];
    }
  }

  /** `[-x for x in metric_lst]`. */
  function Negated(s: seq<real>): (r: seq<real>)
    ensures |r| == |s| && forall i :: 0 <= i < |s| ==> r[i] == -s[i]
  {
    seq(|s|, i requires 0 <= i < |s| => -s[i])
  }

  /** How `whether_stop` ranks a score: higher is better after the negation
      that 'minimize' applies. */
  function StopScore(mode: Mode, v: real): real
  {
    if mode == Minimize then -v else v
  }

  /** The list `whether_stop` scans. */
  function StopKeys(s: seq<real>, mode: Mode): (r: seq<real>)
    ensures |r| == |s| && forall i :: 0 <= i < |s| ==> r[i] == StopScore(mode, s[i])
  {
    if mode == Minimize then Negated(s) else s
  }

  /** The index the scan in `whether_stop` ends with: the last position
      holding `v`, or the initial 0 when no position holds it. */
  function LastIndexOf(s: seq<real>, v: real): nat
  {
    if |s| == 0 then 0
    else if s[|s| - 1] == v then |s| - 1
    else LastIndexOf(s[..|s| - 1], v)
  }

  /** The scan ends on the last position holding `v`, and on 0 when none does. */
  lemma {:induction false} LastIndexOfSpec(s: seq<real>, v: real)
    ensures var k := LastIndexOf(s, v);
      && (v in s ==> k < |s| && s[k] == v && forall j :: k < j < |s| ==> s[j] != v)
      && (v !in s ==> k == 0)
  {
    if |s| > 0 && s[|s| - 1] != v {
      LastIndexOfSpec(s[..|s| - 1], v);
      assert forall j :: 0 <= j < |s| - 1 ==> s[..|s| - 1][j] == s[j];
      assert v in s ==> v in s[..|s| - 1];
    }
  }

  /** Scanning one more element moves the last index to it exactly when it
      holds the value. */
  lemma LastIndexOfSnoc(s: seq<real>, v: real, i: nat)
    requires i < |s|
    ensures LastIndexOf(s[..i + 1], v) == if s[i] == v then i else LastIndexOf(s[..i], v)
  {
    assert s[..i + 1][..i] == s[..i];
  }

  /** What `whether_stop(s, n, mode)` returns. */
  function Stop(s: seq<real>, n: int, mode: Mode): bool
  {
    |s| >= 1 &&
    var keys := StopKeys(s, mode);
    LastIndexOf(keys, Max(keys)) < |s| - n
  }

  /** `whether_stop`: negate for 'minimize', take the maximum, scan forward
      remembering every index that holds it, and compare the last one with
      `len - n`. */
  method WhetherStop(metricLst: seq<real>, n: int := 2, mode: Mode := Maximize) returns (stop: bool)
    ensures stop == Stop(metricLst, n, mode)
  {
    if |metricLst| < 1 {
      return false;
    }
    var lst := if mode == Minimize then Negated(metricLst) else metricLst;
    var maxV := Max(lst);
    var maxIdx := 0;
    var idx := 0;
    while idx < |lst|
      invariant 0 <= idx <= |lst|
      invariant maxIdx == LastIndexOf(lst[..idx], maxV)
    {
      LastIndexOfSnoc(lst, maxV, idx);
      if lst[idx] == maxV {
        maxIdx := idx;
      }
      idx := idx + 1;
    }
    assert lst[..idx] == lst;
    stop := maxIdx < |lst| - n;
  }

  /** Stopping means some earlier score strictly beats every one of the last
      `n` scores; in particular a history of at most `n` scores never stops.
      A score equal to the best inside the window keeps training going,
      because the scan keeps the LAST index of the optimum. */
  lemma StopMeansBestIsStale(s: seq<real>, n: int, mode: Mode)
    ensures Stop(s, n, mode) <==>
      exists i :: 0 <= i < |s| &&
        forall j :: 0 <= j < |s| && |s| - n <= j ==> StopScore(mode, s[j]) < StopScore(mode, s[i])
    ensures |s| <= n ==> !Stop(s, n, mode)
  {
    if |s| > 0 {
      var keys := StopKeys(s, mode);
      var m := Max(keys);
      var k := LastIndexOf(keys, m);
      MaxSpec(keys);
      LastIndexOfSpec(keys, m);
      if k < |s| - n {
        forall j | 0 <= j < |s| && |s| - n <= j
          ensures StopScore(mode, s[j]) < StopScore(mode, s[k])
        {
          assert keys[j] != m && keys[j] <= m;
        }
      } else {
        forall i | 0 <= i < |s|
          ensures StopScore(mode, s[k]) >= StopScore(mode, s[i])
        {
          assert keys[i] <= m;
        }
      }
    }
  }

  /** Once stopped, a further score strictly below the best keeps it stopped. */
  lemma StopPersists(s: seq<real>, x: real, n: int, mode: Mode)
    requires Stop(s, n, mode)
    requires exists i :: 0 <= i < |s| && StopScore(mode, x) < StopScore(mode, s[i])
    ensures Stop(s + [x], n, mode)
  {
    var s' := s + [x];
    var keys := StopKeys(s, mode);
    var b := LastIndexOf(keys, Max(keys));
    MaxSpec(keys);
    LastIndexOfSpec(keys, Max(keys));
    forall j | 0 <= j < |s'| && |s'| - n <= j
      ensures StopScore(mode, s'[j]) < StopScore(mode, s'[b])
    {
      if j == |s| {
        var i :| 0 <= i < |s| && StopScore(mode, x) < StopScore(mode, s[i]);
        assert keys[i] <= keys[b];
      } else {
        assert keys[j] != Max(keys);
      }
    }
    StopMeansBestIsStale(s', n, mode);
  }

  /** A score that ties or beats the best so far clears the stop flag
      whenever the patience is positive. */
  lemma TieClearsStop(s: seq<real>, x: real, n: int, mode: Mode)
    requires n >= 1
    requires forall i :: 0 <= i < |s| ==> StopScore(mode, s[i]) <= StopScore(mode, x)
    ensures !Stop(s + [x], n, mode)
  {
    var s' := s + [x];
    var keys := StopKeys(s', mode);
    MaxSpec(keys);
    assert keys[|s|] == Max(keys);
    assert LastIndexOf(keys, Max(keys)) == |s|;
  }

  /** How `append` compares scores when it looks for the best epoch: by
      `max` in 'maximize' mode and by `min` otherwise. */
  function Beats(mode: Mode, x: real, y: real): bool
  {
    if mode == Maximize then x > y else x < y
  }

  /** `b` is the first position of an optimal score in `s`. */
  ghost predicate IsFirstBest(s: seq<real>, mode: Mode, b: int)
  {
    && 0 <= b < |s|
    && (forall i :: 0 <= i < |s| ==> !Beats(mode, s[i], s[b]))
    && (forall i :: 0 <= i < b ==> Beats(mode, s[b], s[i]))
  }

  /** Python's `list.index(v)` for a value that is present. */
  function IndexOf(s: seq<real>, v: real): nat
    requires v in s
  {
    if s[0] == v then 0 else 1 + IndexOf(s[1..], v)
  }

  /** `list.index` finds the first position holding the value. */
  lemma {:induction false} IndexOfSpec(s: seq<real>, v: real)
    requires v in s
    ensures var k := IndexOf(s, v); k < |s| && s[k] == v && forall j :: 0 <= j < k ==> s[j] != v
  {
    if s[0] != v {
      IndexOfSpec(s[1..], v);
    }
  }

  /** The best epoch `append` computes: the FIRST index of the optimum. */
  function BestEpoch(s: seq<real>, mode: Mode): nat
    requires |s| > 0
  {
    MaxSpec(s);
    MinSpec(s);
    if mode == Maximize then IndexOf(s, Max(s)) else IndexOf(s, Min(s))
  }

  /** The best epoch is the first position of an optimal score. */
  lemma BestEpochSpec(s: seq<real>, mode: Mode)
    requires |s| > 0
    ensures IsFirstBest(s, mode, BestEpoch(s, mode))
  {
    MaxSpec(s);
    MinSpec(s);
    if mode == Maximize {
      IndexOfSpec(s, Max(s));
    } else {
      IndexOfSpec(s, Min(s));
    }
  }

  /** The best epoch holds the optimum `append` looks for. */
  lemma BestEpochScore(s: seq<real>, mode: Mode)
    requires |s| > 0
    ensures BestEpoch(s, mode) < |s|
    ensures s[BestEpoch(s, mode)] == if mode == Maximize then Max(s) else Min(s)
  {
    MaxSpec(s);
    MinSpec(s);
    if mode == Maximize {
      IndexOfSpec(s, Max(s));
    } else {
      IndexOfSpec(s, Min(s));
    }
  }

  /** Two first positions of an optimum coincide. */
  lemma FirstBestUnique(s: seq<real>, mode: Mode, b1: int, b2: int)
    requires IsFirstBest(s, mode, b1) && IsFirstBest(s, mode, b2)
    ensures b1 == b2
  {
    assert !Beats(mode, s[b2], s[b1]) && !Beats(mode, s[b1], s[b2]);
  }

  /** `x` strictly beats every earlier score. */
  ghost predicate Improves(mode: Mode, x: real, s: seq<real>)
  {
    forall i :: 0 <= i < |s| ==> Beats(mode, x, s[i])
  }

  /** Appending a score moves the best epoch to the new entry exactly when the
      score strictly beats every earlier one; a tie or a worse score leaves
      it where it was. */
  lemma BestEpochAfterAppend(s: seq<real>, x: real, mode: Mode)
    requires |s| > 0
    ensures BestEpoch(s + [x], mode) == if Improves(mode, x, s) then |s| else BestEpoch(s, mode)
  {
    var s' := s + [x];
    var b := BestEpoch(s, mode);
    BestEpochSpec(s, mode);
    BestEpochSpec(s', mode);
    if Improves(mode, x, s) {
      assert IsFirstBest(s', mode, |s|);
      FirstBestUnique(s', mode, BestEpoch(s', mode), |s|);
    } else {
      var i :| 0 <= i < |s| && !Beats(mode, x, s[i]);
      assert !Beats(mode, s[i], s[b]);
      assert IsFirstBest(s', mode, b);
      FirstBestUnique(s', mode, BestEpoch(s', mode), b);
    }
  }

  /** The comparison `append` makes: against -1 before the first score,
      against the previous best epoch afterwards. */
  lemma BestMoves(s: seq<real>, x: real, mode: Mode, oldBest: int)
    requires if s == [] then oldBest == -1 else oldBest == BestEpoch(s, mode)
    ensures BestEpoch(s + [x], mode) != oldBest <==> s == [] || Improves(mode, x, s)
  {
    if s != [] {
      BestEpochAfterAppend(s, x, mode);
      BestEpochSpec(s, mode);
    }
  }

  /** The `EarlyStop` object: the score history, the stop flag, the best
      epoch (-1 before any score) and whether the last append moved it. */
  class EarlyStop {
    const mode: Mode
    const patience: int
    var history: seq<real>
    var stopFlag: bool
    var bestEpoch: int
    var isBestChange: bool

    /** The stop flag and the best epoch agree with the history;
        `isBestChange` records what the last `Append` returned. */
    ghost predicate Valid()
      reads this
    {
      && stopFlag == Stop(history, patience, mode)
      && bestEpoch == (if |history| == 0 then -1 else BestEpoch(history, mode))
    }

    constructor (mode: Mode := Maximize, patience: int := 1)
      ensures Valid()
      ensures this.mode == mode && this.patience == patience
      ensures history == [] && !stopFlag && bestEpoch == -1 && !isBestChange
    {
      this.mode := mode;
      this.patience := patience;
      history := [];
      stopFlag := false;
      bestEpoch := -1;
      isBestChange := false;
    }

    /** `append(x)`: record the score, recompute the stop flag and the best
        epoch, and report whether the best epoch moved. */
    method Append(x: real) returns (changed: bool)
      requires Valid()
      modifies this
      ensures Valid()
      ensures history == old(history) + [x]
      ensures stopFlag == Stop(history, patience, mode)
      ensures bestEpoch == BestEpoch(history, mode)
      ensures changed == isBestChange
      ensures changed <==> old(history) == [] || Improves(mode, x, old(history))
      ensures !changed ==> bestEpoch == old(bestEpoch)
    {
      ghost var before := history;
      var lst := history + [x];
      MaxSpec(lst);
      MinSpec(lst);
      stopFlag := WhetherStop(lst, patience, mode);
      var best := if mode == Maximize then IndexOf(lst, Max(lst)) else IndexOf(lst, Min(lst));
      BestMoves(before, x, mode, bestEpoch);
      history := lst;
      if best != bestEpoch {
        isBestChange := true;
        bestEpoch := best;
      } else {
        isBestChange := false;
      }
      changed := isBestChange;
    }

    /** `best_metric()`: -1 before any score, otherwise the score at the best
        epoch, which is the maximum of the history in 'maximize' mode and the
        minimum in any other mode. */
    function BestMetric(): (r: real)
      reads this
      requires Valid()
      ensures |history| == 0 ==> r == -1.0
      ensures |history| > 0 && mode == Maximize ==> r == Max(history)
      ensures |history| > 0 && mode != Maximize ==> r == Min(history)
    {
      if |history| == 0 then -1.0
      else
        BestEpochScore(history, mode);
        history[bestEpoch]
    }
  }

  /** The patience-2 run over the scores 0.1, 0.5, 0.3, 0.2: the best epoch
      moves at the first two appends only, settles on epoch 1, and the fourth
      append raises the stop flag (the last optimum, index 1, is below 4 - 2). */
  method PatienceTwoRun() returns (changes: seq<bool>, stop: bool, best: int, metric: real)
    ensures changes == [true, true, false, false]
    ensures stop && best == 1 && metric == 0.5
  {
    var es := new EarlyStop(Maximize, 2);
    var c0 := es.Append(0.1);
    var c1 := es.Append(0.5);
    var c2 := es.Append(0.3);
    var c3 := es.Append(0.2);
    var h := es.history;
    assert h == [0.1, 0.5, 0.3, 0.2];
    assert es.bestEpoch == 1 by {
      BestEpochSpec([0.1, 0.5], Maximize);
    }
    assert es.stopFlag by {
      StopMeansBestIsStale(h, 2, Maximize);
      assert forall j :: 0 <= j < 4 && 2 <= j ==> StopScore(Maximize, h[j]) < StopScore(Maximize, h[1]);
    }
    MaxSpec(h);
    changes, stop, best, metric := [c0, c1, c2, c3], es.stopFlag, es.bestEpoch, es.BestMetric();
  }
}
