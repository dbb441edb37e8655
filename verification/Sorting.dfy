/** Sorting by a total order, and the code-point order on strings.

Go's `sort.Slice` and `sort.Strings` are modelled by `Sort`; where the order separates the elements the result is
fixed by their multiset alone (`SortedUnique`), so no choice of algorithm or of input order shows in it. */
module Sorting {

  ghost predicate IsTotalPreorder<T(!new)>(le: (T, T) -> bool) {
    && (forall x, y :: le(x, y) || le(y, x))
    && (forall x, y, z :: le(x, y) && le(y, z) ==> le(x, z))
  }

  ghost predicate Sorted<T>(s: seq<T>, le: (T, T) -> bool) {
    forall i, j :: 0 <= i < j < |s| ==> le(s[i], s[j])
  }

  /** No two different elements of `s` are tied under `le`. */
  ghost predicate Separates<T>(s: seq<T>, le: (T, T) -> bool) {
    forall x, y :: x in s && y in s && le(x, y) && le(y, x) ==> x == y
  }

  /** Moves `x` left from the end of `s` past every element it is strictly below. */
  function Insert<T>(s: seq<T>, x: T, le: (T, T) -> bool): seq<T> {
    if s == [] || le(s[|s| - 1], x) then s + [x]
    else Insert(s[..|s| - 1], x, le) + [s[|s| - 1]]
  }

  function Sort<T>(s: seq<T>, le: (T, T) -> bool): seq<T> {
    if s == [] then [] else Insert(Sort(s[..|s| - 1], le), s[|s| - 1], le)
  }

  lemma {:induction false} InsertMultiset<T>(s: seq<T>, x: T, le: (T, T) -> bool)
    ensures multiset(Insert(s, x, le)) == multiset(s) + multiset{x}
  {
    if s != [] && !le(s[|s| - 1], x) {
      InsertMultiset(s[..|s| - 1], x, le);
      assert s == s[..|s| - 1] + [s[|s| - 1]];
    }
  }

  lemma {:induction false} InsertSorted<T(!new)>(s: seq<T>, x: T, le: (T, T) -> bool)
    requires IsTotalPreorder(le) && Sorted(s, le)
    ensures Sorted(Insert(s, x, le), le)
  {
    if s != [] && !le(s[|s| - 1], x) {
      var t := Insert(s[..|s| - 1], x, le);
      InsertSorted(s[..|s| - 1], x, le);
      InsertMultiset(s[..|s| - 1], x, le);
      forall i | 0 <= i < |t|
        ensures le(t[i], s[|s| - 1])
      {
        assert t[i] in multiset(t);
        assert t[i] in s[..|s| - 1] || t[i] == x;
      }
    }
  }

  lemma {:induction false} SortMultiset<T>(s: seq<T>, le: (T, T) -> bool)
    ensures multiset(Sort(s, le)) == multiset(s)
  {
    if s != [] {
      var front, x := s[..|s| - 1], s[|s| - 1];
      SortMultiset(front, le);
      InsertMultiset(Sort(front, le), x, le);
      assert s == front + [x];
    }
  }

  /** What sorting promises: the same elements, in order. */
  lemma {:induction false} SortCorrect<T(!new)>(s: seq<T>, le: (T, T) -> bool)
    requires IsTotalPreorder(le)
    ensures Sorted(Sort(s, le), le)
    ensures multiset(Sort(s, le)) == multiset(s)
  {
    if s != [] {
      SortCorrect(s[..|s| - 1], le);
      InsertSorted(Sort(s[..|s| - 1], le), s[|s| - 1], le);
    }
    SortMultiset(s, le);
  }

  lemma SortedSameFirst<T>(a: seq<T>, b: seq<T>, le: (T, T) -> bool)
    requires Sorted(a, le) && Sorted(b, le)
    requires Separates(a, le)
    requires a != [] && b != [] && a[0] in b && b[0] in a
    ensures a[0] == b[0]
  {
    var i :| 0 <= i < |b| && b[i] == a[0];
    var j :| 0 <= j < |a| && a[j] == b[0];
    assert i == 0 || le(b[0], b[i]);
    assert j == 0 || le(a[0], a[j]);
  }

  lemma TailMultiset<T>(s: seq<T>)
    requires s != []
    ensures multiset(s[1..]) == multiset(s) - multiset{s[0]}
  {
    assert s == [s[0]] + s[1..];
  }

  lemma OrderedTail<T>(a: seq<T>, le: (T, T) -> bool)
    requires a != [] && Sorted(a, le)
    ensures Sorted(a[1..], le)
    ensures Separates(a, le) ==> Separates(a[1..], le)
  {
    assert forall x :: x in a[1..] ==> x in a;
  }

  lemma SameLength<T>(a: seq<T>, b: seq<T>)
    requires multiset(a) == multiset(b)
    ensures |a| == |b| && (a != [] ==> a[0] in b && b[0] in a)
  {
    assert |a| == |multiset(a)| == |multiset(b)| == |b|;
    assert a != [] ==> a[0] in multiset(b) && b[0] in multiset(a);
  }

  lemma SameHeadAndTail<T>(a: seq<T>, b: seq<T>)
    requires a != [] && b != [] && a[0] == b[0] && a[1..] == b[1..]
    ensures a == b
  {
    assert a == [a[0]] + a[1..] && b == [b[0]] + b[1..];
  }

  /** An ordering of a multiset of elements without ties is unique. */
  lemma {:induction false} SortedUnique<T>(a: seq<T>, b: seq<T>, le: (T, T) -> bool)
    requires Sorted(a, le) && Sorted(b, le)
    requires multiset(a) == multiset(b)
    requires Separates(a, le)
    ensures a == b
    decreases |a|
  {
    SameLength(a, b);
    if a != [] {
      SortedSameFirst(a, b, le);
      TailMultiset(a);
      TailMultiset(b);
      OrderedTail(a, le);
      OrderedTail(b, le);
      SortedUnique(a[1..], b[1..], le);
      SameHeadAndTail(a, b);
    }
  }

  /** Where insertion puts its element: after everything at most as large, before everything larger. */
  lemma {:induction false} InsertAt<T>(s: seq<T>, x: T, le: (T, T) -> bool, j: nat)
    requires j <= |s|
    requires forall k :: j <= k < |s| ==> !le(s[k], x)
    requires j == 0 || le(s[j - 1], x)
    ensures Insert(s, x, le) == s[..j] + [x] + s[j..]
  {
    if j < |s| {
      var front := s[..|s| - 1];
      InsertAt(front, x, le, j);
      assert front[..j] == s[..j] && front[j..] + [s[|s| - 1]] == s[j..];
    } else {
      assert s[..j] == s;
    }
  }

  // ---- lexicographic order

  ghost predicate IsStrictOrder<T(!new)>(lt: (T, T) -> bool) {
    && (forall x, y :: lt(x, y) || lt(y, x) || x == y)
    && (forall x, y :: lt(x, y) ==> !lt(y, x) && x != y)
    && (forall x, y, z :: lt(x, y) && lt(y, z) ==> lt(x, z))
  }

  predicate Lex<T(==)>(a: seq<T>, b: seq<T>, lt: (T, T) -> bool) {
    a == [] || (b != [] && (lt(a[0], b[0]) || (a[0] == b[0] && Lex(a[1..], b[1..], lt))))
  }

  /** At `i` the sequences differ for the first time, and `a` has the smaller element. */
  ghost predicate SmallerAt<T(!new)>(a: seq<T>, b: seq<T>, lt: (T, T) -> bool, i: nat) {
    i < |a| && i < |b| && a[..i] == b[..i] && lt(a[i], b[i])
  }

  /** `a` is the beginning of `b`, or smaller at the first difference. */
  ghost predicate Precedes<T(!new)>(a: seq<T>, b: seq<T>, lt: (T, T) -> bool) {
    a <= b || exists i: nat :: SmallerAt(a, b, lt, i)
  }

  lemma {:induction false} LexPrecedes<T(!new)>(a: seq<T>, b: seq<T>, lt: (T, T) -> bool)
    ensures Lex(a, b, lt) <==> Precedes(a, b, lt)
  {
    if a != [] && b != [] {
      if lt(a[0], b[0]) {
        assert SmallerAt(a, b, lt, 0);
      } else {
        LexPrecedes(a[1..], b[1..], lt);
        PrecedesTail(a, b, lt);
      }
    }
  }

  lemma PrecedesTail<T(!new)>(a: seq<T>, b: seq<T>, lt: (T, T) -> bool)
    requires a != [] && b != [] && !lt(a[0], b[0])
    ensures Precedes(a, b, lt) <==> a[0] == b[0] && Precedes(a[1..], b[1..], lt)
  {
    assert a == [a[0]] + a[1..] && b == [b[0]] + b[1..];
    if i: nat :| SmallerAt(a, b, lt, i) {
      assert i > 0 && a[..i][0] == b[..i][0];
      assert a[1..][..i - 1] == a[..i][1..] && b[1..][..i - 1] == b[..i][1..];
      assert SmallerAt(a[1..], b[1..], lt, i - 1);
    }
    if a[0] == b[0] {
      if i: nat :| SmallerAt(a[1..], b[1..], lt, i) {
        assert a[..i + 1] == [a[0]] + a[1..][..i] && b[..i + 1] == [b[0]] + b[1..][..i];
        assert SmallerAt(a, b, lt, i + 1);
      }
    }
  }

  lemma {:induction false} LexTotal<T(!new)>(a: seq<T>, b: seq<T>, lt: (T, T) -> bool)
    requires IsStrictOrder(lt)
    ensures Lex(a, b, lt) || Lex(b, a, lt)
    ensures Lex(a, b, lt) && Lex(b, a, lt) ==> a == b
  {
    if a != [] && b != [] && a[0] == b[0] {
      LexTotal(a[1..], b[1..], lt);
      SameHeadAndTailIf(a, b);
    }
  }

  lemma SameHeadAndTailIf<T>(a: seq<T>, b: seq<T>)
    requires a != [] && b != [] && a[0] == b[0]
    ensures a[1..] == b[1..] ==> a == b
  {
    if a[1..] == b[1..] {
      SameHeadAndTail(a, b);
    }
  }

  lemma {:induction false} LexTransitive<T(!new)>(a: seq<T>, b: seq<T>, c: seq<T>, lt: (T, T) -> bool)
    requires IsStrictOrder(lt) && Lex(a, b, lt) && Lex(b, c, lt)
    ensures Lex(a, c, lt)
  {
    if a != [] && a[0] == b[0] == c[0] {
      LexTransitive(a[1..], b[1..], c[1..], lt);
    }
  }

  predicate CharLt(c: char, d: char) {
    c < d
  }

  /** Code-point order on strings, which is also the byte order of their UTF-8 forms. */
  predicate LexLe(a: string, b: string) {
    Lex(a, b, CharLt)
  }

  lemma LexIsTotalOrder()
    ensures IsTotalPreorder(LexLe)
    ensures forall a, b :: LexLe(a, b) && LexLe(b, a) ==> a == b
  {
    forall a, b ensures LexLe(a, b) || LexLe(b, a) { LexTotal(a, b, CharLt); }
    forall a, b, c | LexLe(a, b) && LexLe(b, c) ensures LexLe(a, c) { LexTransitive(a, b, c, CharLt); }
    forall a, b | LexLe(a, b) && LexLe(b, a) ensures a == b { LexTotal(a, b, CharLt); }
  }
}
