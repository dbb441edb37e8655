/** The stake-weighted median of submitted values: a definition over voters, free of any order, and the sorted scan
that computes it. */
module WeightedMedian {
  import opened Sorting
  import opened WeightedSets

  ghost function VotersBelow<K>(value: map<K, nat>, m: nat): set<K> {
    set a | a in value && value[a] < m
  }

  /** Weight of the voters whose value is strictly below `m`. */
  ghost function Below<K>(value: map<K, nat>, weight: map<K, nat>, m: nat): nat
    requires value.Keys == weight.Keys
  {
    Sum(weight, VotersBelow(value, m))
  }

  /** `m` is a submitted value; at most half the weight lies below it and more than half at or below it. */
  ghost predicate IsMedian<K>(value: map<K, nat>, weight: map<K, nat>, m: nat)
    requires value.Keys == weight.Keys
  {
    && m in value.Values
    && Below(value, weight, m) <= Sum(weight, weight.Keys) / 2 < Below(value, weight, m + 1)
  }

  lemma BelowMonotone<K>(value: map<K, nat>, weight: map<K, nat>, m: nat, n: nat)
    requires value.Keys == weight.Keys && m <= n
    ensures Below(value, weight, m) <= Below(value, weight, n)
  {
    SumSubset(weight, VotersBelow(value, m), VotersBelow(value, n));
  }

  lemma MedianUnique<K>(value: map<K, nat>, weight: map<K, nat>, m: nat, n: nat)
    requires value.Keys == weight.Keys
    requires IsMedian(value, weight, m) && IsMedian(value, weight, n)
    ensures m == n
  {
    if m < n {
      BelowMonotone(value, weight, m + 1, n);
    } else if n < m {
      BelowMonotone(value, weight, n + 1, m);
    }
  }

  /** Voters holding more than half the weight keep the median inside the range of their own values, whatever the
  others submit. */
  lemma MajorityBoundsMedian<K>(value: map<K, nat>, weight: map<K, nat>, m: nat, s: set<K>, lo: nat, hi: nat)
    requires value.Keys == weight.Keys && IsMedian(value, weight, m)
    requires s <= value.Keys && 2 * Sum(weight, s) > Sum(weight, weight.Keys)
    requires forall a :: a in s ==> lo <= value[a] <= hi
    ensures lo <= m <= hi
  {
    if hi < m {
      SumSubset(weight, s, VotersBelow(value, m));
    }
    if m < lo {
      var upTo := VotersBelow(value, m + 1);
      SumUnion(weight, s, upTo);
      SumSubset(weight, s + upTo, weight.Keys);
    }
  }

  // ---- the scan over entries sorted by (value, weight)

  datatype Entry = Entry(value: nat, weight: nat)

  predicate EntryLe(a: Entry, b: Entry) {
    a.value < b.value || (a.value == b.value && a.weight <= b.weight)
  }

  lemma EntryOrder()
    ensures IsTotalPreorder(EntryLe)
  {
  }

  function Total(es: seq<Entry>): nat {
    if es == [] then 0 else Total(es[..|es| - 1]) + es[|es| - 1].weight
  }

  function TotalBelow(es: seq<Entry>, m: nat): nat {
    if es == [] then 0
    else TotalBelow(es[..|es| - 1], m) + if es[|es| - 1].value < m then es[|es| - 1].weight else 0
  }

  lemma {:induction false} InsertTotals(s: seq<Entry>, x: Entry, m: nat)
    ensures Total(Insert(s, x, EntryLe)) == Total(s) + x.weight
    ensures TotalBelow(Insert(s, x, EntryLe), m) == TotalBelow(s, m) + if x.value < m then x.weight else 0
  {
    var t := Insert(s, x, EntryLe);
    if s == [] || EntryLe(s[|s| - 1], x) {
      assert t[..|t| - 1] == s;
    } else {
      InsertTotals(s[..|s| - 1], x, m);
      assert t[..|t| - 1] == Insert(s[..|s| - 1], x, EntryLe);
    }
  }

  lemma {:induction false} SortTotals(s: seq<Entry>, m: nat)
    ensures Total(Sort(s, EntryLe)) == Total(s)
    ensures TotalBelow(Sort(s, EntryLe), m) == TotalBelow(s, m)
  {
    if s != [] {
      SortTotals(s[..|s| - 1], m);
      InsertTotals(Sort(s[..|s| - 1], EntryLe), s[|s| - 1], m);
    }
  }

  /** Where the running weight of a sorted list first exceeds a threshold, the value there splits the list at it. */
  lemma {:induction false} ScanSplits(s: seq<Entry>, i: nat)
    requires Sorted(s, EntryLe) && i < |s|
    ensures TotalBelow(s, s[i].value) <= Total(s[..i])
    ensures Total(s[..i + 1]) <= TotalBelow(s, s[i].value + 1)
  {
    PrefixTotals(s, i, |s|);
    assert s[..|s|] == s;
  }

  lemma {:induction false} PrefixTotals(s: seq<Entry>, i: nat, n: nat)
    requires Sorted(s, EntryLe) && i < n <= |s|
    ensures TotalBelow(s[..n], s[i].value) <= Total(s[..i])
    ensures Total(s[..i + 1]) <= TotalBelow(s[..n], s[i].value + 1)
  {
    assert s[..n][..n - 1] == s[..n - 1];
    if i + 1 < n {
      PrefixTotals(s, i, n - 1);
    } else {
      BelowAtMostTotal(s, i, s[i].value);
      AllBelow(s, i, s[i].value + 1);
    }
  }

  lemma {:induction false} BelowAtMostTotal(s: seq<Entry>, n: nat, m: nat)
    requires n <= |s|
    ensures TotalBelow(s[..n], m) <= Total(s[..n])
  {
    if n > 0 {
      assert s[..n][..n - 1] == s[..n - 1];
      BelowAtMostTotal(s, n - 1, m);
    }
  }

  lemma {:induction false} AllBelow(s: seq<Entry>, n: nat, m: nat)
    requires n <= |s| && forall j :: 0 <= j < n ==> s[j].value < m
    ensures TotalBelow(s[..n], m) == Total(s[..n])
  {
    if n > 0 {
      assert s[..n][..n - 1] == s[..n - 1];
      AllBelow(s, n - 1, m);
    }
  }

  // ---- entries listed from a map of voters, in any order

  ghost predicate Lists<K>(ids: seq<K>, keys: set<K>) {
    && (forall i, j :: 0 <= i < j < |ids| ==> ids[i] != ids[j])
    && (set a | a in ids) == keys
  }

  lemma ListsAppend<K>(ids: seq<K>, keys: set<K>, a: K)
    requires Lists(ids, keys) && a !in keys
    ensures Lists(ids + [a], keys + {a})
  {
    assert forall b :: b in ids + [a] <==> b in ids || b == a;
  }

  ghost function EntriesOf<K>(ids: seq<K>, value: map<K, nat>, weight: map<K, nat>): seq<Entry>
    requires forall a :: a in ids ==> a in value && a in weight
  {
    seq(|ids|, i requires 0 <= i < |ids| => Entry(value[ids[i]], weight[ids[i]]))
  }

  lemma {:induction false} EntriesTotals<K>(ids: seq<K>, value: map<K, nat>, weight: map<K, nat>, keys: set<K>, m: nat)
    requires value.Keys == weight.Keys && keys <= value.Keys && Lists(ids, keys)
    ensures Total(EntriesOf(ids, value, weight)) == Sum(weight, keys)
    ensures TotalBelow(EntriesOf(ids, value, weight), m) == Sum(weight, keys * VotersBelow(value, m))
  {
    var es := EntriesOf(ids, value, weight);
    if ids == [] {
      assert keys == {} && keys * VotersBelow(value, m) == {};
    } else {
      var a, rest := ids[|ids| - 1], ids[..|ids| - 1];
      assert Lists(rest, keys - {a}) by {
        assert forall b :: b in ids <==> b in rest || b == a;
      }
      EntriesTotals(rest, value, weight, keys - {a}, m);
      assert es[..|es| - 1] == EntriesOf(rest, value, weight);
      SumRemove(weight, keys, a);
      var below := keys * VotersBelow(value, m);
      if value[a] < m {
        SumRemove(weight, below, a);
        assert below - {a} == (keys - {a}) * VotersBelow(value, m);
      } else {
        assert below == (keys - {a}) * VotersBelow(value, m);
      }
    }
  }

  /** Sorting any listing of the voters keeps the weight below every value. */
  lemma ListingTotals<K>(ids: seq<K>, value: map<K, nat>, weight: map<K, nat>, m: nat)
    requires value.Keys == weight.Keys && Lists(ids, value.Keys)
    ensures Total(Sort(EntriesOf(ids, value, weight), EntryLe)) == Sum(weight, weight.Keys)
    ensures TotalBelow(Sort(EntriesOf(ids, value, weight), EntryLe), m) == Below(value, weight, m)
  {
    SortTotals(EntriesOf(ids, value, weight), m);
    EntriesTotals(ids, value, weight, value.Keys, m);
    assert value.Keys * VotersBelow(value, m) == VotersBelow(value, m);
  }

  lemma ListingMember<K>(ids: seq<K>, value: map<K, nat>, weight: map<K, nat>, i: nat)
    requires value.Keys == weight.Keys && Lists(ids, value.Keys)
    requires i < |Sort(EntriesOf(ids, value, weight), EntryLe)|
    ensures Sort(EntriesOf(ids, value, weight), EntryLe)[i].value in value.Values
  {
    var es := EntriesOf(ids, value, weight);
    var s := Sort(es, EntryLe);
    EntryOrder();
    SortCorrect(es, EntryLe);
    assert s[i] in multiset(es);
    var j :| 0 <= j < |es| && es[j] == s[i];
    assert ids[j] in value;
  }

  /** The scan of any listing of the voters stops at the median. */
  lemma ScanFindsMedian<K>(ids: seq<K>, value: map<K, nat>, weight: map<K, nat>, s: seq<Entry>, i: nat)
    requires value.Keys == weight.Keys && Lists(ids, value.Keys)
    requires s == Sort(EntriesOf(ids, value, weight), EntryLe) && i < |s|
    requires Total(s[..i]) <= Total(s) / 2 < Total(s[..i + 1])
    ensures IsMedian(value, weight, s[i].value)
  {
    assert Sorted(s, EntryLe) by {
      EntryOrder();
      SortCorrect(EntriesOf(ids, value, weight), EntryLe);
    }
    ScanSplits(s, i);
    ListingTotals(ids, value, weight, s[i].value);
    ListingTotals(ids, value, weight, s[i].value + 1);
    ListingMember(ids, value, weight, i);
  }

  lemma {:induction false} CrossesThreshold(s: seq<Entry>, t: nat) returns (i: nat)
    requires t < Total(s)
    ensures i < |s| && Total(s[..i]) <= t < Total(s[..i + 1])
  {
    var front := s[..|s| - 1];
    if t < Total(front) {
      i := CrossesThreshold(front, t);
      assert front[..i] == s[..i] && front[..i + 1] == s[..i + 1];
    } else {
      i := |s| - 1;
      assert s[..i + 1] == s;
    }
  }

  lemma {:induction false} SomeListing<K>(keys: set<K>) returns (ids: seq<K>)
    ensures Lists(ids, keys)
    decreases |keys|
  {
    if keys == {} {
      ids := [];
    } else {
      var a :| a in keys;
      ids := SomeListing(keys - {a});
      ListsAppend(ids, keys - {a}, a);
      ids := ids + [a];
      assert keys - {a} + {a} == keys;
    }
  }

  lemma MedianExists<K>(value: map<K, nat>, weight: map<K, nat>)
    requires value.Keys == weight.Keys && Sum(weight, weight.Keys) > 0
    ensures exists m :: IsMedian(value, weight, m)
  {
    var ids := SomeListing(value.Keys);
    var s := Sort(EntriesOf(ids, value, weight), EntryLe);
    ListingTotals(ids, value, weight, 0);
    var i := CrossesThreshold(s, Total(s) / 2);
    ScanFindsMedian(ids, value, weight, s, i);
  }

  lemma SameSort(es: seq<Entry>, es': seq<Entry>)
    requires multiset(es) == multiset(es')
    ensures Sort(es, EntryLe) == Sort(es', EntryLe)
  {
    EntryOrder();
    SortCorrect(es, EntryLe);
    SortCorrect(es', EntryLe);
    SortedUnique(Sort(es, EntryLe), Sort(es', EntryLe), EntryLe);
  }

  lemma SamePairsSameWeights<K, L>(ids: seq<K>, value: map<K, nat>, weight: map<K, nat>,
                                   ids': seq<L>, value': map<L, nat>, weight': map<L, nat>, m: nat)
    requires value.Keys == weight.Keys && Lists(ids, value.Keys)
    requires value'.Keys == weight'.Keys && Lists(ids', value'.Keys)
    requires multiset(EntriesOf(ids, value, weight)) == multiset(EntriesOf(ids', value', weight'))
    ensures Sum(weight, weight.Keys) == Sum(weight', weight'.Keys)
    ensures Below(value, weight, m) == Below(value', weight', m)
  {
    SameSort(EntriesOf(ids, value, weight), EntriesOf(ids', value', weight'));
    ListingTotals(ids, value, weight, m);
    ListingTotals(ids', value', weight', m);
  }

  /** The median is a function of the multiset of (value, weight) pairs: two groups of voters, each listed in any
  order, whose pairs agree as multisets have the same median. */
  lemma MedianOfMultiset<K, L>(ids: seq<K>, value: map<K, nat>, weight: map<K, nat>, m: nat,
                               ids': seq<L>, value': map<L, nat>, weight': map<L, nat>, m': nat)
    requires value.Keys == weight.Keys && Lists(ids, value.Keys) && IsMedian(value, weight, m)
    requires value'.Keys == weight'.Keys && Lists(ids', value'.Keys) && IsMedian(value', weight', m')
    requires multiset(EntriesOf(ids, value, weight)) == multiset(EntriesOf(ids', value', weight'))
    ensures m == m'
  {
    if m < m' {
      SamePairsSameWeights(ids, value, weight, ids', value', weight', m + 1);
      BelowMonotone(value', weight', m + 1, m');
    } else if m' < m {
      SamePairsSameWeights(ids, value, weight, ids', value', weight', m' + 1);
      BelowMonotone(value, weight, m' + 1, m);
    }
  }
}
