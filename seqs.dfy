/** Sequence vocabulary shared by the filters: which positions a predicate
    keeps, how a list of positions selects rows, and Python's `filter`. */
module Seqs {

  /** Strictly increasing, so a list of positions names each row once and in order. */
  ghost predicate Increasing(s: seq<nat>)
  {
    forall j, k :: 0 <= j < k < |s| ==> s[j] < s[k]
  }

  /** The positions of `s`, in increasing order, whose element satisfies `p`
      (`[i for i, v in enumerate(s) if p(v)]`). */
  function Where<T>(s: seq<T>, p: T -> bool): seq<nat>
  {
    if |s| == 0 then []
    else
      var init := Where(s[..|s| - 1], p);
      if p(s[|s| - 1]) then init + [|s| - 1] else init
  }

  /** `Where` lists exactly the positions whose element satisfies `p`, each
      once and in increasing order, and is empty exactly when none does. */
  lemma {:induction false} WhereSpec<T>(s: seq<T>, p: T -> bool)
    ensures var r := Where(s, p);
      && (forall i :: i in r <==> 0 <= i < |s| && p(s[i]))
      && Increasing(r)
      && |r| <= |s|
      && (r == [] <==> forall i :: 0 <= i < |s| ==> !p(s[i]))
  {
    if |s| > 0 {
      var init := Where(s[..|s| - 1], p);
      WhereSpec(s[..|s| - 1], p);
      assert forall j :: 0 <= j < |init| ==> init[j] in init;
    }
  }

  /** Extending the scanned prefix by one element extends `Where` by at most
      that position. */
  lemma WhereSnoc<T>(s: seq<T>, p: T -> bool, i: nat)
    requires i < |s|
    ensures Where(s[..i + 1], p) == Where(s[..i], p) + (if p(s[i]) then [i] else [])
  {
    assert s[..i + 1][..i] == s[..i];
  }

  /** Every position in `idx` names a row of `xs`. */
  ghost predicate InBounds<T>(xs: seq<T>, idx: seq<nat>)
  {
    forall j :: 0 <= j < |idx| ==> idx[j] < |xs|
  }

  /** The rows of `xs` named by `idx`, in the order of `idx`. */
  function Gather<T>(xs: seq<T>, idx: seq<nat>): (r: seq<T>)
    requires InBounds(xs, idx)
    ensures |r| == |idx|
    ensures forall j :: 0 <= j < |idx| ==> r[j] == xs[idx[j]]
  {
    seq(|idx|, j requires 0 <= j < |idx| => xs[idx[j]])
  }

  lemma GatherSnoc<T>(xs: seq<T>, idx: seq<nat>, i: nat)
    requires InBounds(xs, idx) && i < |xs|
    ensures InBounds(xs, idx + [i])
    ensures Gather(xs, idx + [i]) == Gather(xs, idx) + [xs[i]]
  {
    assert Gather(xs, idx + [i]) == Gather(xs, idx) + [xs[i]];
  }

  /** Gathering positions that all lie in a prefix reads only the prefix. */
  lemma GatherPrefix<T>(xs: seq<T>, n: nat, idx: seq<nat>)
    requires n <= |xs| && InBounds(xs[..n], idx)
    ensures InBounds(xs, idx)
    ensures Gather(xs, idx) == Gather(xs[..n], idx)
  {
  }

  /** Python's `list(filter(q, s))`. */
  function Filter<T>(s: seq<T>, q: T -> bool): (r: seq<T>)
    ensures forall j :: 0 <= j < |r| ==> q(r[j])
    ensures |r| <= |s|
  {
    if |s| == 0 then []
    else
      var init := Filter(s[..|s| - 1], q);
      if q(s[|s| - 1]) then init + [s[|s| - 1]] else init
  }

  /** `filter` keeps every passing element as often as it occurs, and
      nothing else. */
  lemma {:induction false} FilterCounts<T(!new)>(s: seq<T>, q: T -> bool)
    ensures forall x :: multiset(Filter(s, q))[x] == if q(x) then multiset(s)[x] else 0
  {
    if |s| > 0 {
      FilterCounts(s[..|s| - 1], q);
      assert s == s[..|s| - 1] + [s[|s| - 1]];
    }
  }

  /** A filter every element passes leaves the sequence as it is. */
  lemma {:induction false} FilterAll<T>(s: seq<T>, q: T -> bool)
    requires forall i :: 0 <= i < |s| ==> q(s[i])
    ensures Filter(s, q) == s
  {
    if |s| > 0 {
      FilterAll(s[..|s| - 1], q);
      assert s == s[..|s| - 1] + [s[|s| - 1]];
    }
  }

  /** `filter` keeps exactly the elements at the positions `Where` picks, in
      their original order. */
  lemma {:induction false} FilterIsGatherWhere<T>(s: seq<T>, q: T -> bool)
    ensures InBounds(s, Where(s, q))
    ensures Filter(s, q) == Gather(s, Where(s, q))
  {
    if |s| > 0 {
      var n := |s| - 1;
      var w := Where(s[..n], q);
      FilterIsGatherWhere(s[..n], q);
      GatherPrefix(s, n, w);
      if q(s[n]) {
        GatherSnoc(s, w, n);
      }
    }
  }

  /** Two predicates that agree on every element of `s` filter it alike. */
  lemma {:induction false} FilterAgree<T>(s: seq<T>, q1: T -> bool, q2: T -> bool)
    requires forall i :: 0 <= i < |s| ==> q1(s[i]) == q2(s[i])
    ensures Filter(s, q1) == Filter(s, q2)
  {
    if |s| > 0 {
      FilterAgree(s[..|s| - 1], q1, q2);
    }
  }

  /** What `filter` keeps comes from the input and passes the test. */
  lemma FilterMember<T(!new)>(s: seq<T>, q: T -> bool, x: T)
    requires x in Filter(s, q)
    ensures x in s && q(x)
  {
    FilterCounts(s, q);
    assert multiset(Filter(s, q))[x] > 0;
  }

  /** A filtered increasing sequence is increasing. */
  lemma {:induction false} FilterIncreasing(s: seq<nat>, q: nat -> bool)
    requires Increasing(s)
    ensures Increasing(Filter(s, q))
  {
    if |s| > 0 {
      var n := |s| - 1;
      FilterIncreasing(s[..n], q);
      var init := Filter(s[..n], q);
      if q(s[n]) {
        forall j | 0 <= j < |init|
          ensures init[j] < s[n]
        {
          FilterMember(s[..n], q, init[j]);
          var k :| 0 <= k < n && s[k] == init[j];
        }
        assert Filter(s, q) == init + [s[n]];
      }
    }
  }

  /** Two increasing sequences holding the same elements are equal. */
  lemma {:induction false} IncreasingUnique(a: seq<nat>, b: seq<nat>)
    requires Increasing(a) && Increasing(b)
    requires forall x :: x in a <==> x in b
    ensures a == b
  {
    assert |a| == 0 <==> |b| == 0 by {
      if |a| > 0 { assert a[0] in b; }
      if |b| > 0 { assert b[0] in a; }
    }
    if |a| > 0 {
      var a', b' := a[..|a| - 1], b[..|b| - 1];
      assert a == a' + [a[|a| - 1]] && b == b' + [b[|b| - 1]];
      SameInit(a', a[|a| - 1], b', b[|b| - 1]);
      IncreasingUnique(a', b');
    }
  }

  /** Two increasing sequences with the same elements share their last
      element, and the elements before it. */
  lemma SameInit(a: seq<nat>, la: nat, b: seq<nat>, lb: nat)
    requires Increasing(a + [la]) && Increasing(b + [lb])
    requires forall x :: x in a + [la] <==> x in b + [lb]
    ensures la == lb && Increasing(a) && Increasing(b)
    ensures forall x :: x in a <==> x in b
  {
    LastIsMax(a, la);
    LastIsMax(b, lb);
    assert la in b + [lb] && lb in a + [la];
    forall x | x in a
      ensures x in b
    {
      assert x in a + [la];
    }
    forall x | x in b
      ensures x in a
    {
      assert x in b + [lb];
    }
  }

  /** In an increasing sequence the last element is above all the others,
      and dropping it leaves an increasing sequence. */
  lemma LastIsMax(init: seq<nat>, last: nat)
    requires Increasing(init + [last])
    ensures Increasing(init)
    ensures forall x :: x in init ==> x < last
  {
    var s := init + [last];
    assert forall j :: 0 <= j < |init| ==> s[j] == init[j];
    forall x | x in init
      ensures x < last
    {
      var j :| 0 <= j < |init| && init[j] == x;
      assert s[j] < s[|init|];
    }
  }

  /** `range(n)`. */
  function Positions(n: nat): (r: seq<nat>)
    ensures |r| == n && forall i :: 0 <= i < n ==> r[i] == i
  {
    seq(n, i requires 0 <= i < n => i)
  }
}
