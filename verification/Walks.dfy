/** Walks in a finite directed graph given by successor lists. */
module Walks {

  type Edges = map<string, seq<string>>

  /** Every vertex but the last is known and lists the next one. */
  ghost predicate Walk(g: Edges, p: seq<string>) {
    |p| > 0 && forall i :: 0 <= i < |p| - 1 ==> p[i] in g && p[i + 1] in g[p[i]]
  }

  ghost predicate WalkFromTo(g: Edges, p: seq<string>, a: string, b: string) {
    Walk(g, p) && |p| >= 2 && p[0] == a && p[|p| - 1] == b
  }

  /** `b` is reached from `a` in one or more steps. */
  ghost predicate Reaches(g: Edges, a: string, b: string) {
    exists p :: WalkFromTo(g, p, a, b)
  }

  lemma StepReaches(g: Edges, a: string, b: string)
    requires a in g && b in g[a]
    ensures Reaches(g, a, b)
  {
    assert WalkFromTo(g, [a, b], a, b);
  }

  lemma ReachesOn(g: Edges, a: string, b: string, c: string)
    requires Reaches(g, a, b) && b in g && c in g[b]
    ensures Reaches(g, a, c)
  {
    var p :| WalkFromTo(g, p, a, b);
    assert WalkFromTo(g, p + [c], a, c);
  }

  lemma StepThenReaches(g: Edges, a: string, b: string, c: string)
    requires a in g && b in g[a] && Reaches(g, b, c)
    ensures Reaches(g, a, c)
  {
    var p :| WalkFromTo(g, p, b, c);
    var q := [a] + p;
    forall i | 0 <= i < |q| - 1
      ensures q[i] in g && q[i + 1] in g[q[i]]
    {
      if i > 0 {
        assert q[i] == p[i - 1] && q[i + 1] == p[i];
      }
    }
    assert WalkFromTo(g, q, a, c);
  }

  lemma ReachesThrough(g: Edges, a: string, b: string, c: string)
    requires Reaches(g, a, b) && Reaches(g, b, c)
    ensures Reaches(g, a, c)
  {
    var p :| WalkFromTo(g, p, a, b);
    var q :| WalkFromTo(g, q, b, c);
    var r := p + q[1..];
    forall i | 0 <= i < |r| - 1
      ensures r[i] in g && r[i + 1] in g[r[i]]
    {
      if i >= |p| - 1 {
        assert r[i] == q[i - (|p| - 1)] && r[i + 1] == q[i - (|p| - 1) + 1];
      }
    }
    assert WalkFromTo(g, r, a, c);
  }

  /** A reached vertex is a successor, or is reached from one. */
  lemma ReachesFirst(g: Edges, a: string, c: string) returns (b: string)
    requires Reaches(g, a, c)
    ensures a in g && b in g[a] && (b == c || Reaches(g, b, c))
  {
    var p :| WalkFromTo(g, p, a, c);
    b := p[1];
    if |p| > 2 {
      var q := p[1..];
      forall i | 0 <= i < |q| - 1
        ensures q[i] in g && q[i + 1] in g[q[i]]
      {
        assert q[i] == p[i + 1] && q[i + 1] == p[i + 2];
      }
      assert WalkFromTo(g, q, b, c);
    }
  }

  /** A set closed under successors that holds the successors of `a` holds everything reached from `a`. */
  lemma ClosedHoldsReached(g: Edges, closed: set<string>, a: string, b: string)
    requires forall x, y :: x in closed && x in g && y in g[x] ==> y in closed
    requires a in g && forall y :: y in g[a] ==> y in closed
    requires Reaches(g, a, b)
    ensures b in closed
  {
    var p :| WalkFromTo(g, p, a, b);
    ClosedHoldsWalk(g, closed, p, |p| - 1);
  }

  lemma {:induction false} ClosedHoldsWalk(g: Edges, closed: set<string>, p: seq<string>, i: nat)
    requires forall x, y :: x in closed && x in g && y in g[x] ==> y in closed
    requires Walk(g, p) && 1 <= i < |p| && forall y :: y in g[p[0]] ==> y in closed
    ensures p[i] in closed
  {
    if i > 1 {
      ClosedHoldsWalk(g, closed, p, i - 1);
    }
    assert p[i - 1] in g && p[i - 1 + 1] in g[p[i - 1]];
  }

  /** Successors rank strictly below: what makes a graph acyclic. */
  ghost predicate Ranked(g: Edges, rank: map<string, nat>) {
    && g.Keys <= rank.Keys
    && forall x, y :: x in g && y in g[x] ==> y in rank && rank[y] < rank[x]
  }

  lemma RankedReaches(g: Edges, rank: map<string, nat>, a: string, b: string)
    requires Ranked(g, rank) && Reaches(g, a, b)
    ensures a in rank && b in rank && rank[b] < rank[a]
  {
    var p :| WalkFromTo(g, p, a, b);
    RankedWalk(g, rank, p, |p| - 1);
  }

  lemma {:induction false} RankedWalk(g: Edges, rank: map<string, nat>, p: seq<string>, i: nat)
    requires Ranked(g, rank) && Walk(g, p) && 1 <= i < |p|
    ensures p[0] in rank && p[i] in rank && rank[p[i]] < rank[p[0]]
  {
    assert p[0] in g && p[0 + 1] in g[p[0]];
    if i > 1 {
      RankedWalk(g, rank, p, i - 1);
      assert p[i - 1] in g && p[i - 1 + 1] in g[p[i - 1]];
    }
  }

  // ---- cycles

  /** Following edges from `h` can run into a cycle. */
  ghost predicate CycleAhead(g: Edges, h: string) {
    Reaches(g, h, h) || exists x :: Reaches(g, h, x) && Reaches(g, x, x)
  }

  lemma CycleAheadOfParent(g: Edges, h: string, p: string)
    requires h in g && p in g[h] && CycleAhead(g, p)
    ensures CycleAhead(g, h)
  {
    if Reaches(g, p, p) {
      StepReaches(g, h, p);
    } else {
      var x :| Reaches(g, p, x) && Reaches(g, x, x);
      StepThenReaches(g, h, p, x);
    }
  }

  /** A cycle ahead of a vertex is ahead of one of its successors. */
  lemma ParentOfCycle(g: Edges, h: string) returns (p: string)
    requires CycleAhead(g, h)
    ensures h in g && p in g[h] && CycleAhead(g, p)
  {
    if Reaches(g, h, h) {
      p := ReachesFirst(g, h, h);
    } else {
      var x :| Reaches(g, h, x) && Reaches(g, x, x);
      p := ReachesFirst(g, h, x);
    }
  }

  ghost function Mentioned(g: Edges): set<string> {
    set k, i | k in g && 0 <= i < |g[k]| :: g[k][i]
  }

  /** Everything reached from `h`; it shrinks from a vertex to its successors. */
  ghost function Behind(g: Edges, h: string): set<string> {
    set x | x in Mentioned(g) && Reaches(g, h, x)
  }

  lemma BehindShrinks(g: Edges, h: string, p: string)
    requires h in g && p in g[h] && !CycleAhead(g, h)
    ensures !CycleAhead(g, p)
    ensures |Behind(g, p)| < |Behind(g, h)|
  {
    if CycleAhead(g, p) {
      CycleAheadOfParent(g, h, p);
    }
    var small, big := Behind(g, p), Behind(g, h);
    forall x | x in small
      ensures x in big
    {
      StepThenReaches(g, h, p, x);
    }
    StepReaches(g, h, p);
    var i :| 0 <= i < |g[h]| && g[h][i] == p;
    assert p in Mentioned(g);
    assert p in big && p !in small;
    assert small + (big - {p} - small) == big - {p};
  }

  lemma NoCycleThen(g: Edges, h: string)
    requires h in g && forall k :: 0 <= k < |g[h]| ==> !CycleAhead(g, g[h][k])
    ensures !CycleAhead(g, h)
  {
    if CycleAhead(g, h) {
      var p := ParentOfCycle(g, h);
    }
  }
}
