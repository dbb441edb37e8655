/** Optional values, and counting in finite collections. */
module Collections {

  datatype Option<+T> = None | Some(value: T)

  lemma SubsetSizes<T>(a: set<T>, b: set<T>)
    requires a <= b
    ensures |a| <= |b| && (|a| == |b| ==> a == b)
  {
    assert a + (b - a) == b;
  }

  ghost predicate Distinct<T>(s: seq<T>) {
    forall i, j :: 0 <= i < j < |s| ==> s[i] != s[j]
  }

  lemma {:induction false} CountInDistinct<T>(s: seq<T>, x: T)
    requires Distinct(s)
    ensures multiset(s)[x] == if x in s then 1 else 0
  {
    if s != [] {
      var front, last := s[..|s| - 1], s[|s| - 1];
      CountInDistinct(front, x);
      assert s == front + [last];
    }
  }

  lemma Repeats<T>(s: seq<T>, i: nat, j: nat)
    requires i < j < |s| && s[i] == s[j]
    ensures multiset(s)[s[i]] >= 2
  {
    assert s == s[..j] + s[j..];
    assert s[..j][i] == s[i] && s[j..][0] == s[j];
  }

  lemma {:induction false} SizeOfDistinct<T>(s: seq<T>, members: set<T>)
    requires Distinct(s) && forall x :: x in members <==> x in s
    ensures |s| == |members|
  {
    if s == [] {
      assert members == {};
    } else {
      var front, last := s[..|s| - 1], s[|s| - 1];
      assert s == front + [last];
      SizeOfDistinct(front, members - {last});
    }
  }
}
