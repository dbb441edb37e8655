/** What the verification depth counts: the walks along references that start at the packet. */
module DepthWalks {
  import opened Collections
  import opened Walks
  import opened Evidence = Depth

  /** A walk from `h`, given by which parent it goes to at each packet; the empty one stays. */
  predicate IsWalk(g: Edges, h: string, w: seq<nat>)
    decreases |w|
  {
    w == [] || (h in g && w[0] < |g[h]| && IsWalk(g, g[h][w[0]], w[1..]))
  }

  /** `ws` lists what satisfies `p`, each once. */
  ghost predicate ListsAll(ws: seq<seq<nat>>, p: seq<nat> -> bool) {
    Distinct(ws) && forall w :: w in ws <==> p(w)
  }

  function Prefixed(i: nat, ws: seq<seq<nat>>): (r: seq<seq<nat>>)
    ensures |r| == |ws|
  {
    seq(|ws|, k requires 0 <= k < |ws| => [i] + ws[k])
  }

  lemma PrefixedMembers(i: nat, ws: seq<seq<nat>>, w: seq<nat>)
    ensures w in Prefixed(i, ws) <==> w != [] && w[0] == i && w[1..] in ws
  {
    if w != [] && w[0] == i && w[1..] in ws {
      var k :| 0 <= k < |ws| && ws[k] == w[1..];
      assert Prefixed(i, ws)[k] == w;
    }
    if w in Prefixed(i, ws) {
      var k :| 0 <= k < |ws| && Prefixed(i, ws)[k] == w;
      assert w[1..] == ws[k];
    }
  }

  lemma PrefixedDistinct(i: nat, ws: seq<seq<nat>>)
    requires Distinct(ws)
    ensures Distinct(Prefixed(i, ws))
  {
    var r := Prefixed(i, ws);
    forall j, k | 0 <= j < k < |r|
      ensures r[j] != r[k]
    {
      assert r[j][1..] == ws[j] && r[k][1..] == ws[k];
    }
  }

  lemma JoinedDistinct(a: seq<seq<nat>>, b: seq<seq<nat>>)
    requires Distinct(a) && Distinct(b) && forall w :: w in a ==> w !in b
    ensures Distinct(a + b)
  {
    forall j, k | 0 <= j < k < |a + b|
      ensures (a + b)[j] != (a + b)[k]
    {
      if j < |a| <= k {
        assert (a + b)[j] in a && (a + b)[k] in b;
      }
    }
  }

  /** A walk that begins by going to one of the first `n` parents. */
  predicate GoesBelow(g: Edges, h: string, n: nat, w: seq<nat>) {
    w != [] && w[0] < n && IsWalk(g, h, w)
  }

  lemma {:induction false} FirstSteps(g: Edges, h: string, n: nat) returns (ws: seq<seq<nat>>)
    requires !CycleAhead(g, h) && h in g && n <= |g[h]|
    ensures ListsAll(ws, w => GoesBelow(g, h, n, w)) && |ws| == DepthSum(g, h, n)
    decreases |Behind(g, h)|, 0, n
  {
    if n == 0 {
      ws := [];
    } else {
      var parent := g[h][n - 1];
      BehindShrinks(g, h, parent);
      var before := FirstSteps(g, h, n - 1);
      var on := WalksListed(g, parent);
      PrefixedDistinct(n - 1, on);
      var more := Prefixed(n - 1, on);
      forall w
        ensures w in more <==> w != [] && w[0] == n - 1 && w[1..] in on
      {
        PrefixedMembers(n - 1, on, w);
      }
      JoinedDistinct(before, more);
      ws := before + more;
    }
  }

  /** The depth of a packet is the number of walks that start at it, the empty one included. */
  lemma {:induction false} WalksListed(g: Edges, h: string) returns (ws: seq<seq<nat>>)
    requires !CycleAhead(g, h)
    ensures ListsAll(ws, w => IsWalk(g, h, w)) && |ws| == Depth(g, h)
    decreases |Behind(g, h)|, 1, 0
  {
    ws := [[]];
    if h in g {
      var steps := FirstSteps(g, h, |g[h]|);
      JoinedDistinct(ws, steps);
      ws := ws + steps;
    }
  }
}
