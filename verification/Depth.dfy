/** Verification depth of an evidence packet: a depth-first search with a cache and an on-stack mark, against the plain
recursion it abbreviates. An evidence map sends a hash to its genesis chain; a hash outside it is unknown. */
module Depth {
  import opened Collections
  import opened Int64
  import opened Walks

  // ---- the plain recursion

  /** One for the packet itself plus the depths of its parents; one for a leaf or an unknown hash. */
  ghost function Depth(g: Edges, h: string): (d: nat)
    requires !CycleAhead(g, h)
    ensures d >= 1
    decreases |Behind(g, h)|, 1, 0
  {
    if h in g then 1 + DepthSum(g, h, |g[h]|) else 1
  }

  ghost function DepthSum(g: Edges, h: string, n: nat): nat
    requires !CycleAhead(g, h) && h in g && n <= |g[h]|
    decreases |Behind(g, h)|, 0, n
  {
    if n == 0 then 0
    else
      BehindShrinks(g, h, g[h][n - 1]);
      DepthSum(g, h, n - 1) + Depth(g, g[h][n - 1])
  }

  // ---- the search

  /** The hashes being worked on, each listed in the genesis chain of the one before, `hash` last. */
  ghost predicate OnStack(g: Edges, stack: seq<string>, hash: string) {
    Walk(g, stack + [hash])
  }

  lemma StackedTwice(g: Edges, stack: seq<string>, hash: string)
    requires OnStack(g, stack, hash) && hash in stack
    ensures CycleAhead(g, hash)
  {
    var i :| 0 <= i < |stack| && stack[i] == hash;
    var p := stack + [hash];
    var q := p[i..];
    forall k | 0 <= k < |q| - 1
      ensures q[k] in g && q[k + 1] in g[q[k]]
    {
      assert q[k] == p[i + k] && q[k + 1] == p[i + k + 1];
    }
    assert WalkFromTo(g, q, hash, hash);
  }

  lemma StackGrows(g: Edges, stack: seq<string>, hash: string, parent: string)
    requires OnStack(g, stack, hash) && hash in g && parent in g[hash]
    ensures OnStack(g, stack + [hash], parent)
  {
    var p, q := stack + [hash], stack + [hash] + [parent];
    forall k | 0 <= k < |q| - 1
      ensures q[k] in g && q[k + 1] in g[q[k]]
    {
      assert q[k] == p[k];
      if k < |p| - 1 {
        assert q[k + 1] == p[k + 1];
      }
    }
  }

  ghost predicate CacheOk(g: Edges, cache: map<string, int>) {
    forall h :: h in cache ==> !CycleAhead(g, h) && cache[h] == Wrap(Depth(g, h))
  }

  class Search {
    const g: Edges
    var cache: map<string, int>
    var visited: set<string>

    constructor (g: Edges)
      ensures this.g == g && cache == map[] && visited == {}
    {
      this.g, cache, visited := g, map[], {};
    }

    /** What holds between calls: cached depths are right, and a marked hash is cached or still being worked on. */
    ghost predicate Valid(stack: seq<string>)
      reads this
    {
      CacheOk(g, cache) && forall h :: h in visited ==> h in stack || h in cache
    }

    /** The depth of `hash`, or `None` for a cycle. */
    method ComputeDepth(hash: string, ghost stack: seq<string>) returns (r: Option<int>)
      requires Valid(stack) && OnStack(g, stack, hash)
      modifies this
      ensures r.None? <==> CycleAhead(g, hash)
      ensures r.Some? ==> r.value == Wrap(Depth(g, hash))
      ensures r.Some? ==> Valid(stack) && old(visited) <= visited
      decreases g.Keys - visited
    {
      if hash in cache {
        return Some(cache[hash]);
      }
      if hash in visited {
        StackedTwice(g, stack, hash);
        return None;
      }
      visited := visited + {hash};
      if hash !in g || |g[hash]| == 0 {
        if CycleAhead(g, hash) {
          var p := ParentOfCycle(g, hash);
        }
        cache := cache[hash := 1];
        return Some(1);
      }
      var total := 0;
      ghost var marked := visited;
      for i := 0 to |g[hash]|
        invariant Valid(stack + [hash]) && marked <= visited
        invariant forall k :: 0 <= k < i ==> !CycleAhead(g, g[hash][k])
        invariant total == SumSoFar(g, hash, i)
      {
        var parent := g[hash][i];
        StackGrows(g, stack, hash, parent);
        var d := ComputeDepth(parent, stack + [hash]);
        if d.None? {
          CycleAheadOfParent(g, hash, parent);
          return None;
        }
        SumGrows(g, hash, i);
        total := Add(total, d.value);
      }
      NoCycleThen(g, hash);
      SumMeaning(g, hash);
      var depth := Add(total, 1);
      cache := cache[hash := depth];
      visited := visited - {hash};
      return Some(depth);
    }
  }

  /** The running total of the parents' depths, as a 64-bit variable holds it. */
  ghost function SumSoFar(g: Edges, h: string, n: nat): int
    requires h in g && n <= |g[h]| && forall k :: 0 <= k < n ==> !CycleAhead(g, g[h][k])
  {
    if n == 0 then 0 else Add(SumSoFar(g, h, n - 1), Wrap(Depth(g, g[h][n - 1])))
  }

  lemma SumGrows(g: Edges, h: string, n: nat)
    requires h in g && n < |g[h]| && forall k :: 0 <= k <= n ==> !CycleAhead(g, g[h][k])
    ensures SumSoFar(g, h, n + 1) == Add(SumSoFar(g, h, n), Wrap(Depth(g, g[h][n])))
  {
  }

  lemma {:induction false} SumIsWrapped(g: Edges, h: string, n: nat)
    requires !CycleAhead(g, h) && h in g && n <= |g[h]|
    requires forall k :: 0 <= k < n ==> !CycleAhead(g, g[h][k])
    ensures SumSoFar(g, h, n) == Wrap(DepthSum(g, h, n))
  {
    if n > 0 {
      SumIsWrapped(g, h, n - 1);
      WrapAdd(DepthSum(g, h, n - 1), Depth(g, g[h][n - 1]));
    }
  }

  lemma SumMeaning(g: Edges, h: string)
    requires !CycleAhead(g, h) && h in g
    requires forall k :: 0 <= k < |g[h]| ==> !CycleAhead(g, g[h][k])
    ensures Add(SumSoFar(g, h, |g[h]|), 1) == Wrap(Depth(g, h))
  {
    SumIsWrapped(g, h, |g[h]|);
    WrapAdd(DepthSum(g, h, |g[h]|), 1);
  }

  /** Depth of a hash in an evidence map: fails exactly on a reachable cycle, else the plain recursion in 64 bits. */
  method ComputeVerificationDepth(hash: string, g: Edges) returns (r: Option<int>)
    ensures r.None? <==> CycleAhead(g, hash)
    ensures r.Some? ==> r.value == Wrap(Depth(g, hash))
  {
    var s := new Search(g);
    r := s.ComputeDepth(hash, []);
  }
}
