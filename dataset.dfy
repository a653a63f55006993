/** Dataset-level helpers: `filter_data`, which keeps the samples whose
    length lies in a range, and `dict_merge`, which folds a list of
    dictionaries into one, later entries winning. */
module Dataset {
  import opened Seqs

  /** The positions `filter_data` keeps: length within `[minLen, maxLen]`,
      both bounds inclusive. */
  function KeepIdx<V>(lens: seq<V>, lengthOf: V -> int, minLen: int, maxLen: int): seq<nat>
  {
    Where(lens, l => minLen <= lengthOf(l) <= maxLen)
  }

  /** Position `i` is kept exactly when its length is in range, and the kept
      positions are listed in increasing order. */
  lemma KeepIdxSpec<V>(lens: seq<V>, lengthOf: V -> int, minLen: int, maxLen: int)
    ensures var r := KeepIdx(lens, lengthOf, minLen, maxLen);
      && (forall i :: i in r <==> 0 <= i < |lens| && minLen <= lengthOf(lens[i]) <= maxLen)
      && Increasing(r)
  {
    WhereSpec(lens, l => minLen <= lengthOf(l) <= maxLen);
  }

  /** `[x for idx, x in enumerate(v) if idx in keep]`. */
  function KeepAt<V>(v: seq<V>, keep: seq<nat>): (r: seq<V>)
    ensures InBounds(v, Filter(keep, i => i < |v|))
    ensures Increasing(keep) ==> r == Gather(v, Filter(keep, i => i < |v|))
  {
    var w := Where(Positions(|v|), i => i in keep);
    WhereSpec(Positions(|v|), i => i in keep);
    assert forall j :: 0 <= j < |w| ==> w[j] in w;
    KeepAtIsGather(v, keep);
    Gather(v, w)
  }

  /** The positions below `|v|` that lie in an increasing `keep`, listed by
      scanning `v` or by filtering `keep`, are the same list. */
  lemma KeepAtIsGather<V>(v: seq<V>, keep: seq<nat>)
    ensures var f := Filter(keep, i => i < |v|);
      && InBounds(v, f)
      && (Increasing(keep) ==> Where(Positions(|v|), i => i in keep) == f)
  {
    var f := Filter(keep, i => i < |v|);
    var w := Where(Positions(|v|), i => i in keep);
    assert forall j :: 0 <= j < |f| ==> f[j] < |v|;
    if Increasing(keep) {
      WhereSpec(Positions(|v|), i => i in keep);
      FilterCounts(keep, i => i < |v|);
      FilterIncreasing(keep, i => i < |v|);
      forall x: nat
        ensures x in w <==> x in f
      {
        assert x in f <==> multiset(f)[x] > 0;
        assert x in keep <==> multiset(keep)[x] > 0;
        if x < |v| {
          assert Positions(|v|)[x] == x;
        }
      }
      IncreasingUnique(w, f);
    }
  }

  /** `filter_data`: the positions whose `lenKey` entry lies in
      `[minLen, maxLen]` are kept, and every list in the dictionary is cut
      down to those of them it has, in order; the key set is unchanged. */
  function FilterData<V>(data: map<string, seq<V>>, lengthOf: V -> int, lenKey: string := "node_len",
                         minLen: int := 0, maxLen: int := 20): (r: map<string, seq<V>>)
    requires lenKey in data
    ensures r.Keys == data.Keys
    ensures forall k :: k in data ==>
      var keep := KeepIdx(data[lenKey], lengthOf, minLen, maxLen);
      && InBounds(data[k], Filter(keep, i => i < |data[k]|))
      && r[k] == Gather(data[k], Filter(keep, i => i < |data[k]|))
  {
    var keep := KeepIdx(data[lenKey], lengthOf, minLen, maxLen);
    KeepIdxSpec(data[lenKey], lengthOf, minLen, maxLen);
    map k | k in data :: KeepAt(data[k], keep)
  }

  /** When every list is as long as the `lenKey` list (one entry per sample),
      every list is restricted to exactly the kept positions, so the result is
      again one entry per kept sample, each of whose lengths is in range. */
  lemma FilterDataAligned<V>(data: map<string, seq<V>>, lengthOf: V -> int, lenKey: string,
                             minLen: int, maxLen: int)
    requires lenKey in data
    requires forall k :: k in data ==> |data[k]| == |data[lenKey]|
    ensures var keep := KeepIdx(data[lenKey], lengthOf, minLen, maxLen);
      var r := FilterData(data, lengthOf, lenKey, minLen, maxLen);
      && (forall k :: k in data ==> InBounds(data[k], keep) && r[k] == Gather(data[k], keep))
      && (forall k :: k in data ==> |r[k]| == |r[lenKey]|)
      && (forall j :: 0 <= j < |r[lenKey]| ==> minLen <= lengthOf(r[lenKey][j]) <= maxLen)
  {
    var keep := KeepIdx(data[lenKey], lengthOf, minLen, maxLen);
    var r := FilterData(data, lengthOf, lenKey, minLen, maxLen);
    KeepIdxSpec(data[lenKey], lengthOf, minLen, maxLen);
    forall k | k in data
      ensures InBounds(data[k], keep) && r[k] == Gather(data[k], keep)
    {
      assert forall j :: 0 <= j < |keep| ==> keep[j] in keep;
      FilterAll(keep, i => i < |data[k]|);
    }
    forall j | 0 <= j < |r[lenKey]|
      ensures minLen <= lengthOf(r[lenKey][j]) <= maxLen
    {
      assert keep[j] in keep;
    }
  }

  /** `dict_merge`: the dictionaries folded left to right with `{**a, **b}`. */
  function DictMerge<K, V>(ds: seq<map<K, V>>): (r: map<K, V>)
    ensures forall i :: 0 <= i < |ds| ==> ds[i].Keys <= r.Keys
  {
    if |ds| == 0 then map[] else DictMerge(ds[..|ds| - 1]) + ds[|ds| - 1]
  }

  /** A key is in the merge exactly when some dictionary holds it. */
  lemma {:induction false} DictMergeKeys<K, V>(ds: seq<map<K, V>>, k: K)
    ensures k in DictMerge(ds) <==> exists i :: 0 <= i < |ds| && k in ds[i]
  {
    if |ds| > 0 {
      var n := |ds| - 1;
      var init := ds[..n];
      DictMergeKeys(init, k);
      if k in DictMerge(ds) && k !in ds[n] {
        var i :| 0 <= i < n && k in init[i];
        assert k in ds[i];
      }
      if i :| 0 <= i < |ds| && k in ds[i] {
        if k !in ds[n] {
          assert k in init[i];
        }
      }
    }
  }

  /** The value of a key comes from the last dictionary that holds it. */
  lemma {:induction false} DictMergeLast<K, V>(ds: seq<map<K, V>>, i: nat, k: K)
    requires i < |ds| && k in ds[i]
    requires forall j :: i < j < |ds| ==> k !in ds[j]
    ensures k in DictMerge(ds) && DictMerge(ds)[k] == ds[i][k]
  {
    var n := |ds| - 1;
    if i < n {
      var init := ds[..n];
      assert k !in ds[n];
      assert forall j :: i < j < n ==> init[j] == ds[j];
      DictMergeLast(init, i, k);
    }
  }

  /** `{**a, **b}` is associative. */
  lemma MergeAssoc<K, V>(a: map<K, V>, b: map<K, V>, c: map<K, V>)
    ensures (a + b) + c == a + (b + c)
  {
  }

  /** Merging a concatenation is merging the two merges, the second winning. */
  lemma {:induction false} DictMergeConcat<K, V>(a: seq<map<K, V>>, b: seq<map<K, V>>)
    ensures DictMerge(a + b) == DictMerge(a) + DictMerge(b)
  {
    if |b| == 0 {
      assert a + b == a;
    } else {
      var b' := b[..|b| - 1];
      var x := b[|b| - 1];
      DictMergeConcat(a, b');
      assert (a + b)[..|a + b| - 1] == a + b';
      calc {
        DictMerge(a + b);
        DictMerge(a + b') + x;
        (DictMerge(a) + DictMerge(b')) + x;
        { MergeAssoc(DictMerge(a), DictMerge(b'), x); }
        DictMerge(a) + DictMerge(b);
      }
    }
  }
}
