/** How far the 64-bit depth of an evidence packet can be trusted: a bound by the number of packets behind it. */
module DepthBound {
  import opened Collections
  import opened Int64
  import opened WeightedSets
  import opened Walks
  import opened Evidence = Depth

  function Pow2(n: nat): (p: nat)
    ensures p >= 1
  {
    if n == 0 then 1 else 2 * Pow2(n - 1)
  }

  lemma {:induction false} Pow2Grows(m: nat, n: nat)
    requires m <= n
    ensures Pow2(m) <= Pow2(n)
    decreases n
  {
    if m < n {
      Pow2Grows(m, n - 1);
    }
  }

  lemma EightMore(k: nat)
    ensures Pow2(k + 8) == 256 * Pow2(k)
  {
    assert Pow2(k + 2) == 4 * Pow2(k);
    assert Pow2(k + 4) == 4 * Pow2(k + 2);
    assert Pow2(k + 6) == 4 * Pow2(k + 4);
    assert Pow2(k + 8) == 4 * Pow2(k + 6);
  }

  lemma SixtyThree()
    ensures Pow2(63) == 2 * Pow2(62) == I63
  {
    assert Pow2(3) == 8;
    assert Pow2(7) == 128;
    EightMore(7);
    EightMore(15);
    EightMore(23);
    EightMore(31);
    EightMore(39);
    EightMore(47);
    EightMore(55);
  }

  // ---- the bound

  /** No genesis chain names a parent twice. */
  ghost predicate NoRepeatedParents(g: Edges) {
    forall h :: h in g ==> Distinct(g[h])
  }

  lemma {:induction false} Largest(s: set<string>, size: map<string, nat>) returns (t: string)
    requires s != {} && s <= size.Keys
    ensures t in s && forall x :: x in s ==> size[x] <= size[t]
    decreases |s|
  {
    t :| t in s;
    if s != {t} {
      var u := Largest(s - {t}, size);
      if size[t] < size[u] {
        t := u;
      }
    }
  }

  lemma ReachedIsMentioned(g: Edges, x: string, y: string)
    requires Reaches(g, x, y)
    ensures y in Mentioned(g)
  {
    var p :| WalkFromTo(g, p, x, y);
    var k := p[|p| - 2];
    assert k in g && p[|p| - 2 + 1] in g[k];
    var i :| 0 <= i < |g[k]| && g[k][i] == y;
  }

  /** What is behind a packet is not behind anything it reaches. */
  lemma ReachedHasLess(g: Edges, x: string, t: string)
    requires !CycleAhead(g, x) && Reaches(g, x, t)
    ensures |Behind(g, t)| < |Behind(g, x)|
  {
    var small, big := Behind(g, t), Behind(g, x);
    forall y | y in small ensures y in big {
      ReachesThrough(g, x, t, y);
    }
    ReachedIsMentioned(g, x, t);
    assert t in big && t !in small;
    assert small + (big - {t} - small) == big - {t};
  }

  ghost predicate Closed(g: Edges, s: set<string>) {
    forall x, y :: x in s && Reaches(g, x, y) ==> y in s
  }

  lemma BehindClosed(g: Edges, h: string)
    requires !CycleAhead(g, h)
    ensures Closed(g, Behind(g, h)) && forall x :: x in Behind(g, h) ==> !CycleAhead(g, x)
  {
    forall x, y | x in Behind(g, h) && Reaches(g, x, y)
      ensures y in Behind(g, h)
    {
      ReachesThrough(g, h, x, y);
      ReachedIsMentioned(g, h, y);
    }
    forall x | x in Behind(g, h)
      ensures !CycleAhead(g, x)
    {
      if y :| Reaches(g, x, y) && Reaches(g, y, y) {
        ReachesThrough(g, h, x, y);
      }
    }
  }

  ghost function Parents(g: Edges, h: string, n: nat): set<string>
    requires h in g && n <= |g[h]|
  {
    set k | 0 <= k < n :: g[h][k]
  }

  ghost function Worth(g: Edges, s: set<string>): map<string, nat> {
    map x | x in s :: Pow2(|Behind(g, x)|)
  }

  /** Of an acyclic closed set, the element with most behind it is reached from none and can be taken off. */
  lemma TopTaken(g: Edges, s: set<string>) returns (t: string)
    requires s != {} && Closed(g, s) && forall x :: x in s ==> !CycleAhead(g, x)
    ensures t in s && Closed(g, s - {t}) && Behind(g, t) <= s - {t}
  {
    t := Largest(s, map x | x in s :: |Behind(g, x)|);
    forall x, y | x in s && Reaches(g, x, y)
      ensures y in s - {t}
    {
      if y == t {
        ReachedHasLess(g, x, t);
      }
    }
  }

  /** In an acyclic set closed under references, the powers of two of what is behind its elements add up to less than
  the power of two of its size. */
  lemma {:induction false} WorthBounded(g: Edges, all: set<string>, s: set<string>)
    requires Closed(g, s) && s <= all && forall x :: x in s ==> !CycleAhead(g, x)
    ensures Sum(Worth(g, all), s) < Pow2(|s|)
    decreases |s|
  {
    if s != {} {
      var t := TopTaken(g, s);
      WorthBounded(g, all, s - {t});
      SumRemove(Worth(g, all), s, t);
      SubsetSizes(Behind(g, t), s - {t});
      Pow2Grows(|Behind(g, t)|, |s - {t}|);
    }
  }

  lemma ParentsBehind(g: Edges, h: string, n: nat)
    requires h in g && n <= |g[h]|
    ensures Parents(g, h, n) <= Behind(g, h)
  {
    forall p | p in Parents(g, h, n)
      ensures p in Behind(g, h)
    {
      StepReaches(g, h, p);
      ReachedIsMentioned(g, h, p);
    }
  }

  lemma NextParent(g: Edges, h: string, n: nat)
    requires h in g && 0 < n <= |g[h]| && Distinct(g[h])
    ensures g[h][n - 1] in Parents(g, h, n) && Parents(g, h, n) - {g[h][n - 1]} == Parents(g, h, n - 1)
  {
  }

  /** Parents that differ add up to no more than bounds on each of them do. */
  lemma {:induction false} ParentsAddUp(g: Edges, h: string, n: nat, w: map<string, nat>)
    requires !CycleAhead(g, h) && h in g && n <= |g[h]| && Distinct(g[h]) && Parents(g, h, n) <= w.Keys
    requires forall p :: p in Parents(g, h, n) ==> !CycleAhead(g, p) && Depth(g, p) <= w[p]
    ensures DepthSum(g, h, n) <= Sum(w, Parents(g, h, n))
  {
    if n > 0 {
      NextParent(g, h, n);
      ParentsAddUp(g, h, n - 1, w);
      SumRemove(w, Parents(g, h, n), g[h][n - 1]);
    }
  }

  /** The depth of a packet is at most two to the number of packets behind it. */
  lemma {:induction false} DepthBounded(g: Edges, h: string)
    requires !CycleAhead(g, h) && NoRepeatedParents(g)
    ensures Depth(g, h) <= Pow2(|Behind(g, h)|)
    decreases |Behind(g, h)|
  {
    if h in g {
      var all, parents := Behind(g, h), Parents(g, h, |g[h]|);
      ParentsBehind(g, h, |g[h]|);
      forall p | p in parents
        ensures !CycleAhead(g, p) && Depth(g, p) <= Worth(g, all)[p]
      {
        BehindShrinks(g, h, p);
        DepthBounded(g, p);
      }
      ParentsAddUp(g, h, |g[h]|, Worth(g, all));
      BehindClosed(g, h);
      WorthBounded(g, all, all);
      SumSubset(Worth(g, all), parents, all);
    }
  }

  // ---- the bound is sharp

  function Name(k: nat): string {
    seq(k, _ => 'e')
  }

  /** Packets of `0..n` letters, each naming all shorter ones once. */
  ghost function Complete(n: nat): Edges {
    map s | s in (set k | 0 <= k <= n :: Name(k)) :: seq(|s|, i requires 0 <= i => Name(i))
  }

  lemma CompleteEdge(n: nat, x: string, y: string)
    requires x in Complete(n) && y in Complete(n)[x]
    ensures |x| <= n && x == Name(|x|) && y == Name(|y|) && |y| < |x|
  {
    var k :| 0 <= k <= n && x == Name(k);
    var i :| 0 <= i < |x| && y == Complete(n)[x][i];
    assert y == Name(i);
  }

  lemma CompleteAcyclic(n: nat, h: string)
    ensures NoRepeatedParents(Complete(n)) && !CycleAhead(Complete(n), h)
  {
    var g := Complete(n);
    var rank := map s | s in g :: |s|;
    forall x, y | x in g && y in g[x]
      ensures y in rank && rank[y] < rank[x]
    {
      CompleteEdge(n, x, y);
    }
    forall x
      ensures !Reaches(g, x, x)
    {
      if Reaches(g, x, x) {
        RankedReaches(g, rank, x, x);
      }
    }
    forall x | x in g
      ensures Distinct(g[x])
    {
      assert forall i :: 0 <= i < |g[x]| ==> |g[x][i]| == i;
    }
  }

  ghost function Shorter(k: nat): (s: set<string>)
    ensures |s| == k && forall x :: x in s <==> |x| < k && x == Name(|x|)
  {
    if k == 0 then {} else Shorter(k - 1) + {Name(k - 1)}
  }

  lemma CompleteBehind(n: nat, k: nat)
    requires k <= n
    ensures |Behind(Complete(n), Name(k))| <= k
  {
    var g := Complete(n);
    forall x | x in Behind(g, Name(k))
      ensures x in Shorter(k)
    {
      forall u, v | u in Shorter(k) && u in g && v in g[u]
        ensures v in Shorter(k)
      {
        CompleteEdge(n, u, v);
      }
      forall v | v in g[Name(k)]
        ensures v in Shorter(k)
      {
        CompleteEdge(n, Name(k), v);
      }
      ClosedHoldsReached(g, Shorter(k), Name(k), x);
    }
    SubsetSizes(Behind(g, Name(k)), Shorter(k));
  }

  lemma {:induction false} CompleteDepths(n: nat, k: nat)
    requires k <= n && !CycleAhead(Complete(n), Name(k))
    ensures Depth(Complete(n), Name(k)) == Pow2(k)
    decreases k, 1, 0
  {
    assert Name(k) in Complete(n);
    CompleteSums(n, k, k);
  }

  lemma {:induction false} CompleteSums(n: nat, k: nat, j: nat)
    requires j <= k <= n && !CycleAhead(Complete(n), Name(k)) && Name(k) in Complete(n)
    ensures DepthSum(Complete(n), Name(k), j) == Pow2(j) - 1
    decreases k, 0, j
  {
    if j > 0 {
      CompleteSums(n, k, j - 1);
      CompleteAcyclic(n, Name(j - 1));
      CompleteDepths(n, j - 1);
      assert Complete(n)[Name(k)][j - 1] == Name(j - 1);
    }
  }

  /** Every packet without repeated parents and with at most `n` packets behind it is reported with its true depth. */
  ghost predicate ReportedExactly(n: nat) {
    forall g, h :: !CycleAhead(g, h) && NoRepeatedParents(g) && |Behind(g, h)| <= n ==>
      Int64.Wrap(Depth(g, h)) == Depth(g, h)
  }

  /** Up to 62 packets behind it, a packet is always reported with its true depth; with 63 it may not be: of 64 packets,
  each naming all earlier ones, the last has depth 2^63. */
  lemma ReportedDepthExact(n: nat)
    ensures ReportedExactly(n) <==> n <= 62
  {
    SixtyThree();
    if n <= 62 {
      forall g, h | !CycleAhead(g, h) && NoRepeatedParents(g) && |Behind(g, h)| <= n
        ensures Int64.Wrap(Depth(g, h)) == Depth(g, h)
      {
        DepthBounded(g, h);
        Pow2Grows(|Behind(g, h)|, 62);
      }
    } else {
      var g, h := Complete(63), Name(63);
      CompleteAcyclic(63, h);
      CompleteBehind(63, 63);
      CompleteDepths(63, 63);
      assert Int64.Wrap(Depth(g, h)) != Depth(g, h);
    }
  }

  // ---- repeated parents

  /** Packets of `0..n` letters, each naming the next shorter one twice. */
  ghost function Doubled(n: nat): Edges {
    map s | s in (set k | 0 <= k <= n :: Name(k)) :: if s == "" then [] else [s[1..], s[1..]]
  }

  function DoubledDepth(k: nat): nat {
    if k == 0 then 1 else 2 * DoubledDepth(k - 1) + 1
  }

  lemma DoubledEdge(n: nat, x: string, y: string)
    requires x in Doubled(n) && y in Doubled(n)[x]
    ensures y in Doubled(n) && |y| < |x|
  {
    var k :| 0 <= k <= n && x == Name(k);
    assert x != "" && y == x[1..];
    assert x[1..] == Name(k - 1);
  }

  lemma DoubledRanked(n: nat)
    ensures Ranked(Doubled(n), map s | s in Doubled(n) :: |s|)
  {
    var g, rank := Doubled(n), map s | s in Doubled(n) :: |s|;
    forall x, y | x in g && y in g[x]
      ensures y in rank && rank[y] < rank[x]
    {
      DoubledEdge(n, x, y);
    }
  }

  lemma {:induction false} DoubledPow2(k: nat)
    ensures DoubledDepth(k) == 2 * Pow2(k) - 1
  {
    if k > 0 {
      DoubledPow2(k - 1);
    }
  }

  lemma DoubledAcyclic(n: nat, h: string)
    ensures !CycleAhead(Doubled(n), h)
  {
    var g := Doubled(n);
    DoubledRanked(n);
    forall x
      ensures !Reaches(g, x, x)
    {
      if Reaches(g, x, x) {
        RankedReaches(g, map s | s in g :: |s|, x, x);
      }
    }
  }

  lemma {:induction false} DoubledDepths(n: nat, k: nat)
    requires k <= n && !CycleAhead(Doubled(n), Name(k))
    ensures Depth(Doubled(n), Name(k)) == DoubledDepth(k)
  {
    var g, h := Doubled(n), Name(k);
    assert h in g;
    if k > 0 {
      assert h[1..] == Name(k - 1);
      DoubledAcyclic(n, Name(k - 1));
      DoubledDepths(n, k - 1);
      assert g[h] == [Name(k - 1), Name(k - 1)];
      assert DepthSum(g, h, 1) == DepthSum(g, h, 0) + Depth(g, g[h][0]);
      assert DepthSum(g, h, 2) == DepthSum(g, h, 1) + Depth(g, g[h][1]);
    }
  }

  /** With repeated parents a chain is enough: of 64 packets, each naming its predecessor twice, the last has depth
  2^64 - 1 and is reported with depth -1. */
  lemma RepeatedParentsOverflow()
    ensures !CycleAhead(Doubled(63), Name(63))
    ensures Depth(Doubled(63), Name(63)) == 2 * I63 - 1 && Int64.Wrap(Depth(Doubled(63), Name(63))) == -1
  {
    DoubledAcyclic(63, Name(63));
    DoubledDepths(63, 63);
    DoubledPow2(63);
    SixtyThree();
  }
}
