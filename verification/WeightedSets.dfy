/** Sums of weights over finite sets, and the unsigned 64-bit range. */
module WeightedSets {

  const U64: nat := 0x1_0000_0000_0000_0000

  /** The value an unsigned 64-bit variable holds after a computation that yields `x`. */
  function Wrap(x: nat): (r: nat)
    ensures r < U64
    ensures x < U64 ==> r == x
  {
    if x < U64 then x else Wrap(x - U64)
  }

  lemma {:induction false} WrapAdd(x: nat, y: nat)
    ensures Wrap(Wrap(x) + y) == Wrap(x + y)
  {
    if x >= U64 {
      WrapAdd(x - U64, y);
    }
  }

  lemma {:induction false} WrapAtMost(x: nat)
    ensures Wrap(x) <= x
  {
    if x >= U64 {
      WrapAtMost(x - U64);
    }
  }

  ghost function Sum<T>(w: map<T, nat>, s: set<T>): nat
    requires s <= w.Keys
  {
    if s == {} then 0 else var x :| x in s; w[x] + Sum(w, s - {x})
  }

  lemma {:induction false} SumRemove<T>(w: map<T, nat>, s: set<T>, x: T)
    requires s <= w.Keys && x in s
    ensures Sum(w, s) == w[x] + Sum(w, s - {x})
    decreases |s|
  {
    var y :| y in s && Sum(w, s) == w[y] + Sum(w, s - {y});
    if y != x {
      SumRemove(w, s - {y}, x);
      SumRemove(w, s - {x}, y);
      assert s - {y} - {x} == s - {x} - {y};
    }
  }

  lemma {:induction false} SumUnion<T>(w: map<T, nat>, a: set<T>, b: set<T>)
    requires a <= w.Keys && b <= w.Keys && a !! b
    ensures Sum(w, a + b) == Sum(w, a) + Sum(w, b)
    decreases |a|
  {
    if a == {} {
      assert a + b == b;
    } else {
      var x :| x in a;
      SumRemove(w, a, x);
      SumRemove(w, a + b, x);
      assert a + b - {x} == (a - {x}) + b;
      SumUnion(w, a - {x}, b);
    }
  }

  lemma SumSubset<T>(w: map<T, nat>, a: set<T>, b: set<T>)
    requires a <= b <= w.Keys
    ensures Sum(w, a) <= Sum(w, b)
  {
    SumUnion(w, a, b - a);
    assert a + (b - a) == b;
  }

  /** Two sets that together outweigh everything share weight: at least the excess. */
  lemma SumOverlap<T>(w: map<T, nat>, a: set<T>, b: set<T>)
    requires a <= w.Keys && b <= w.Keys
    ensures Sum(w, a) + Sum(w, b) <= Sum(w, w.Keys) + Sum(w, a * b)
  {
    SumUnion(w, a - b, a * b);
    SumUnion(w, b - a, a * b);
    SumUnion(w, a - b, b);
    assert (a - b) + a * b == a && (b - a) + a * b == b;
    SumSubset(w, (a - b) + b, w.Keys);
  }

  lemma {:induction false} SumPositive<T>(w: map<T, nat>, s: set<T>) returns (x: T)
    requires s <= w.Keys && Sum(w, s) > 0
    ensures x in s && w[x] > 0
    decreases |s|
  {
    x :| x in s && Sum(w, s) == w[x] + Sum(w, s - {x});
    if w[x] == 0 {
      x := SumPositive(w, s - {x});
    }
  }

  lemma {:induction false} SumAgree<T>(w: map<T, nat>, v: map<T, nat>, s: set<T>)
    requires s <= w.Keys && s <= v.Keys
    requires forall x :: x in s ==> w[x] == v[x]
    ensures Sum(w, s) == Sum(v, s)
    decreases |s|
  {
    if s != {} {
      var x :| x in s;
      SumRemove(w, s, x);
      SumRemove(v, s, x);
      SumAgree(w, v, s - {x});
    }
  }
}
