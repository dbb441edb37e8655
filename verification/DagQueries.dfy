/** Ancestry searches over the causal graph, and the two admission checks that rely on them. */
module DagQueries {
  import opened Collections
  import opened Walks
  import opened Dag

  /** `a` causally precedes `d`. */
  ghost predicate Ancestor(events: Events, a: EventID, d: EventID) {
    Reaches(Backward(events), d, a)
  }

  lemma AncestorsPrecede(events: Events, a: EventID, d: EventID)
    requires Causal(events) && Ancestor(events, a, d)
    ensures a != d && a in events && d in events
  {
    var rank :| Ranked(Backward(events), rank);
    RankedReaches(Backward(events), rank, d, a);
    var b := ReachesFirst(Backward(events), d, a);
    ClosedHoldsReached(Backward(events), events.Keys, d, a);
  }

  /** `s` lists the elements of `visited`, each once. */
  ghost predicate Listing(s: seq<EventID>, visited: set<EventID>) {
    && (forall i, j :: 0 <= i < j < |s| ==> s[i] != s[j])
    && (forall x :: x in s <==> x in visited)
  }

  /** Queues the references not seen before. */
  method Enqueue(refs: seq<EventID>, visited: set<EventID>, queue: seq<EventID>, ghost done: seq<EventID>)
    returns (visited': set<EventID>, queue': seq<EventID>)
    requires Listing(done + queue, visited)
    ensures visited' == visited + (set r | r in refs)
    ensures Listing(done + queue', visited') && queue <= queue'
  {
    visited', queue' := visited, queue;
    for i := 0 to |refs|
      invariant visited' == visited + (set r | r in refs[..i])
      invariant Listing(done + queue', visited') && queue <= queue'
    {
      assert refs[..i + 1] == refs[..i] + [refs[i]];
      if refs[i] !in visited' {
        ListingGrows(done + queue', visited', refs[i]);
        assert done + queue' + [refs[i]] == done + (queue' + [refs[i]]);
        visited' := visited' + {refs[i]};
        queue' := queue' + [refs[i]];
      }
    }
    assert refs[..|refs|] == refs;
  }

  lemma ListingGrows(s: seq<EventID>, visited: set<EventID>, x: EventID)
    requires Listing(s, visited) && x !in visited
    ensures Listing(s + [x], visited + {x})
  {
  }

  lemma HeadIsNew(done: seq<EventID>, queue: seq<EventID>, visited: set<EventID>)
    requires Listing(done + queue, visited) && queue != []
    ensures queue[0] in visited && queue[0] !in done
    ensures done + [queue[0]] + queue[1..] == done + queue
  {
    var all := done + queue;
    assert all[|done|] == queue[0];
    assert forall i :: 0 <= i < |done| ==> all[i] == done[i];
  }

  /** Everything visited lies behind `from` (or is `from`), and what is behind the finished part has been visited. */
  ghost predicate Searching(events: Events, from: EventID, done: seq<EventID>, visited: set<EventID>) {
    && from in events
    && (forall x :: x in visited ==> x == from || Ancestor(events, x, from))
    && (forall x, y :: x in done && x in events && y in events[x].refs ==> y in visited)
  }

  lemma SearchStep(events: Events, from: EventID, done: seq<EventID>, visited: set<EventID>, cur: EventID)
    requires Causal(events) && Searching(events, from, done, visited) && cur in visited
    ensures cur in events
    ensures Searching(events, from, done + [cur], visited + (set r | r in events[cur].refs))
  {
    if cur != from {
      AncestorsPrecede(events, cur, from);
    }
    var g := Backward(events);
    forall y | y in events[cur].refs
      ensures Ancestor(events, y, from)
    {
      assert y in g[cur];
      if cur == from {
        StepReaches(g, from, y);
      } else {
        ReachesOn(g, from, cur, y);
      }
    }
  }

  /** When the queue is empty the search has seen every ancestor. */
  lemma SearchComplete(events: Events, from: EventID, done: seq<EventID>, visited: set<EventID>, a: EventID)
    requires Causal(events) && Searching(events, from, done, visited)
    requires forall x :: x in visited ==> x in done
    requires forall y :: y in events[from].refs ==> y in visited
    requires Ancestor(events, a, from)
    ensures a in visited
  {
    var g := Backward(events);
    forall x, y | x in visited && x in g && y in g[x]
      ensures y in visited
    {
      assert x in done && y in events[x].refs;
    }
    ClosedHoldsReached(g, visited, from, a);
  }

  /** Breadth-first closure over the references: exactly the ancestors, each once, never the event itself. */
  method Ancestors(g: Graph, id: EventID) returns (r: Option<seq<EventID>>)
    requires WellFormed(g)
    ensures r.None? <==> id !in g.events
    ensures r.Some? ==> forall a :: a in r.value <==> Ancestor(g.events, a, id)
    ensures r.Some? ==> id !in r.value && forall i, j :: 0 <= i < j < |r.value| ==> r.value[i] != r.value[j]
  {
    if id !in g.events {
      return None;
    }
    var result: seq<EventID> := [];
    var visited, queue := Enqueue(g.events[id].refs, {}, [], result);
    RefsAreAncestors(g.events, id);
    ghost var unseen := g.events.Keys;
    while queue != []
      invariant Listing(result + queue, visited)
      invariant Searching(g.events, id, result, visited)
      invariant forall y :: y in g.events[id].refs ==> y in visited
      invariant forall x :: x in visited ==> Ancestor(g.events, x, id)
      invariant unseen == set x | x in g.events && x !in result
      decreases unseen
    {
      var cur := queue[0];
      HeadIsNew(result, queue, visited);
      SearchStep(g.events, id, result, visited, cur);
      unseen := unseen - {cur};
      queue := queue[1..];
      result := result + [cur];
      if cur in g.events {
        AllBehind(g.events, id, visited, cur);
        visited, queue := Enqueue(g.events[cur].refs, visited, queue, result);
      }
    }
    assert result + [] == result;
    forall a | Ancestor(g.events, a, id)
      ensures a in result
    {
      SearchComplete(g.events, id, result, visited, a);
    }
    if id in result {
      AncestorsPrecede(g.events, id, id);
    }
    return Some(result);
  }

  lemma RefsAreAncestors(events: Events, id: EventID)
    requires id in events
    ensures forall y :: y in events[id].refs ==> Ancestor(events, y, id)
  {
    forall y | y in events[id].refs
      ensures Ancestor(events, y, id)
    {
      StepReaches(Backward(events), id, y);
    }
  }

  lemma AllBehind(events: Events, from: EventID, visited: set<EventID>, cur: EventID)
    requires (forall x :: x in visited ==> Ancestor(events, x, from)) && cur in visited && cur in events
    ensures forall y :: y in events[cur].refs ==> Ancestor(events, y, from)
  {
    forall y | y in events[cur].refs
      ensures Ancestor(events, y, from)
    {
      assert y in Backward(events)[cur];
      ReachesOn(Backward(events), from, cur, y);
    }
  }

  /** Early-exit search: agrees with the ancestor relation on every stored pair, and is an error on any other. */
  method IsAncestor(g: Graph, a: EventID, d: EventID) returns (r: Option<bool>)
    requires WellFormed(g)
    ensures r.None? <==> a !in g.events || d !in g.events
    ensures r.Some? ==> (r.value <==> Ancestor(g.events, a, d))
  {
    if a !in g.events || d !in g.events {
      return None;
    }
    if a == d {
      if Ancestor(g.events, a, d) {
        AncestorsPrecede(g.events, a, d);
      }
      return Some(false);
    }
    ghost var done: seq<EventID> := [];
    ghost var unseen := g.events.Keys;
    var visited, queue := {d}, [d];
    while queue != []
      invariant Listing(done + queue, visited) && d in visited
      invariant Searching(g.events, d, done, visited)
      invariant a !in done
      invariant unseen == set x | x in g.events && x !in done
      decreases unseen
    {
      var cur := queue[0];
      HeadIsNew(done, queue, visited);
      SearchStep(g.events, d, done, visited, cur);
      unseen := unseen - {cur};
      if cur == a {
        return Some(true);
      }
      queue := queue[1..];
      done := done + [cur];
      if cur in g.events {
        visited, queue := Enqueue(g.events[cur].refs, visited, queue, done);
      }
    }
    assert done + [] == done;
    if Ancestor(g.events, a, d) {
      SearchComplete(g.events, d, done, visited, a);
    }
    return Some(false);
  }

  // ---- anchors

  /** What the anchor check asks for: no anchor, a tip, or an ancestor of a tip. */
  ghost predicate Anchored(g: Graph, anchor: EventID) {
    anchor == "" || exists t :: t in g.tips && (t == anchor || Ancestor(g.events, anchor, t))
  }

  /** Events above a given rank. */
  ghost function Higher(events: Events, rank: map<string, nat>, x: EventID): set<EventID> {
    set y | y in events && y in rank && x in rank && rank[x] < rank[y]
  }

  /** Every event is a tip or lies behind one. */
  lemma {:induction false} EventUnderTip(g: Graph, rank: map<string, nat>, x: EventID) returns (t: EventID)
    requires WellFormed(g) && Ranked(Backward(g.events), rank) && x in g.events
    ensures t in g.tips && (t == x || Ancestor(g.events, x, t))
    decreases |Higher(g.events, rank, x)|
  {
    if ChildrenOf(g.events, x) == {} {
      t := x;
    } else {
      var c :| c in ChildrenOf(g.events, x);
      var back := Backward(g.events);
      assert x in back[c] && rank[x] < rank[c];
      HigherShrinks(g.events, rank, x, c);
      t := EventUnderTip(g, rank, c);
      if t == c {
        StepReaches(back, c, x);
      } else {
        ReachesOn(back, t, c, x);
      }
    }
  }

  lemma HigherShrinks(events: Events, rank: map<string, nat>, x: EventID, c: EventID)
    requires x in rank && c in rank && c in events && rank[x] < rank[c]
    ensures |Higher(events, rank, c)| < |Higher(events, rank, x)|
  {
    var big, small := Higher(events, rank, x), Higher(events, rank, c);
    assert c in big && c !in small && small <= big;
    assert |big - {c}| == |big| - 1;
    assert small + (big - {c} - small) == big - {c};
  }

  /** An anchor is good exactly when it is empty or names a stored event ... */
  lemma AnchoredIffStored(g: Graph, anchor: EventID)
    requires WellFormed(g)
    ensures Anchored(g, anchor) <==> anchor == "" || anchor in g.events
  {
    if anchor in g.events {
      var rank :| Ranked(Backward(g.events), rank);
      var t := EventUnderTip(g, rank, anchor);
    }
    forall t | t in g.tips && Ancestor(g.events, anchor, t)
      ensures anchor in g.events
    {
      AncestorsPrecede(g.events, anchor, t);
    }
  }

  /** ... so it stays good however the graph grows. */
  lemma AnchorStaysGood(g: Graph, g': Graph, anchor: EventID)
    requires WellFormed(g) && WellFormed(g') && g.events.Keys <= g'.events.Keys
    requires Anchored(g, anchor)
    ensures Anchored(g', anchor)
  {
    AnchoredIffStored(g, anchor);
    AnchoredIffStored(g', anchor);
  }

  /** Scans the tips in whatever order they come. */
  method VerifyAnchor(g: Graph, anchor: EventID) returns (ok: bool)
    requires WellFormed(g)
    ensures ok <==> Anchored(g, anchor)
    ensures ok <==> anchor == "" || anchor in g.events
  {
    AnchoredIffStored(g, anchor);
    if anchor == "" {
      return true;
    }
    var tips := g.tips;
    while tips != {}
      invariant tips <= g.tips
      invariant forall t :: t in g.tips ==> t in tips || (t != anchor && !Ancestor(g.events, anchor, t))
    {
      var tip :| tip in tips;
      tips := tips - {tip};
      if tip == anchor {
        return true;
      }
      var isAnc := IsAncestor(g, anchor, tip);
      if isAnc.Some? && isAnc.value {
        return true;
      }
      if isAnc.None? && Ancestor(g.events, anchor, tip) {
        AncestorsPrecede(g.events, anchor, tip);
      }
    }
    return false;
  }

  // ---- prerequisites

  datatype Prerequisites = Forged | Checked(allProjected: bool, missing: seq<EventID>)

  ghost predicate Declared(lists: seq<seq<EventID>>, p: EventID) {
    exists i :: 0 <= i < |lists| && p in lists[i]
  }

  /** The declared prerequisites of all consumers, as one set. */
  method CollectPrerequisites(lists: seq<seq<EventID>>) returns (prereqs: set<EventID>)
    ensures forall p :: p in prereqs <==> Declared(lists, p)
  {
    prereqs := {};
    for i := 0 to |lists|
      invariant forall p :: p in prereqs <==> exists k :: 0 <= k < i && p in lists[k]
    {
      prereqs := prereqs + set p | p in lists[i];
    }
  }

  /** Succeeds exactly when every declared prerequisite strictly precedes the event, and then nothing is missing:
  with this graph the deferral branch is never taken. */
  method CheckPrerequisites(g: Graph, ev: EventID, lists: seq<seq<EventID>>) returns (r: Prerequisites)
    requires WellFormed(g)
    ensures r.Checked? <==> forall p :: Declared(lists, p) ==> Ancestor(g.events, p, ev)
    ensures r.Checked? ==> r.allProjected && r.missing == []
  {
    var prereqs := CollectPrerequisites(lists);
    if prereqs == {} {
      return Checked(true, []);
    }
    var missing: seq<EventID> := [];
    var todo := prereqs;
    while todo != {}
      invariant todo <= prereqs && missing == []
      invariant forall p :: p in prereqs - todo ==> Ancestor(g.events, p, ev)
    {
      var p :| p in todo;
      todo := todo - {p};
      var isAnc := IsAncestor(g, p, ev);
      if Ancestor(g.events, p, ev) {
        AncestorsPrecede(g.events, p, ev);
      }
      if isAnc.None? {
        return Forged;
      }
      if !isAnc.value {
        return Forged;
      }
      if p !in g.events {
        missing := missing + [p];
      }
    }
    return Checked(|missing| == 0, missing);
  }
}
