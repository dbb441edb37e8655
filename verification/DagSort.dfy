/** The deterministic causal order: cycle detection by counting references, then a sort by (timestamp, ID). */
module DagSort {
  import opened Collections
  import opened Sorting
  import opened Walks
  import opened Dag
  import opened DagQueries

  predicate EventLe(a: Event, b: Event) {
    a.timestamp < b.timestamp || (a.timestamp == b.timestamp && LexLe(a.id, b.id))
  }

  lemma EventOrder()
    ensures IsTotalPreorder(EventLe)
    ensures forall a, b :: EventLe(a, b) && EventLe(b, a) ==> a.id == b.id
  {
    LexIsTotalOrder();
  }

  /** `s` lists the stored events, each once. */
  ghost predicate Enumerates(s: seq<Event>, events: Events) {
    && (forall i, j :: 0 <= i < j < |s| ==> s[i].id != s[j].id)
    && (forall e :: e in s ==> e.id in events && events[e.id] == e)
    && (forall id :: id in events ==> events[id] in s)
  }

  /** The causal listing of a graph: all events, by timestamp, ties broken by ID. */
  ghost predicate IsCausalOrder(s: seq<Event>, events: Events) {
    Enumerates(s, events) && Sorted(s, EventLe)
  }

  lemma SameEnumeration(s: seq<Event>, t: seq<Event>, events: Events)
    requires Enumerates(s, events) && Enumerates(t, events)
    ensures multiset(s) == multiset(t)
  {
    forall e: Event
      ensures multiset(s)[e] == multiset(t)[e]
    {
      CountInDistinct(s, e);
      CountInDistinct(t, e);
    }
  }

  /** There is only one causal order, so it cannot depend on how any map was iterated. */
  lemma CausalOrderUnique(s: seq<Event>, t: seq<Event>, events: Events)
    requires IsCausalOrder(s, events) && IsCausalOrder(t, events)
    ensures s == t
  {
    SameEnumeration(s, t, events);
    EventOrder();
    SortedUnique(s, t, EventLe);
  }

  ghost predicate FirstSmallerAt(a: string, b: string, k: nat) {
    k < |a| && k < |b| && a[..k] == b[..k] && a[k] < b[k]
  }

  ghost predicate IdBefore(a: string, b: string) {
    a < b || exists k: nat :: FirstSmallerAt(a, b, k)
  }

  /** In it an earlier event has the smaller timestamp, or the same one and an ID that is the beginning of the other's
  or smaller at the first difference. */
  lemma CausalOrderMeans(s: seq<Event>, events: Events, i: nat, j: nat)
    requires IsCausalOrder(s, events) && i < j < |s|
    ensures s[i].timestamp <= s[j].timestamp
    ensures s[i].timestamp == s[j].timestamp ==> s[i].id != s[j].id && IdBefore(s[i].id, s[j].id)
  {
    assert EventLe(s[i], s[j]);
    LexPrecedes(s[i].id, s[j].id, CharLt);
    if k: nat :| SmallerAt(s[i].id, s[j].id, CharLt, k) {
      assert FirstSmallerAt(s[i].id, s[j].id, k);
    }
  }

  lemma DistinctFromMultiset(s: seq<Event>, t: seq<Event>, events: Events)
    requires Enumerates(s, events) && multiset(t) == multiset(s)
    ensures Enumerates(t, events)
  {
    forall e
      ensures e in t <==> e in s
    {
      assert e in t <==> e in multiset(t);
      assert e in s <==> e in multiset(s);
    }
    forall i, j | 0 <= i < j < |t|
      ensures t[i].id != t[j].id
    {
      assert t[i] in s && t[j] in s;
      if t[i] == t[j] {
        CountInDistinct(s, t[i]);
        Repeats(t, i, j);
      }
    }
  }

  /** Sorting any enumeration of the events gives the causal order. */
  lemma SortGivesCausalOrder(s: seq<Event>, events: Events)
    requires Enumerates(s, events)
    ensures IsCausalOrder(Sort(s, EventLe), events)
  {
    EventOrder();
    SortCorrect(s, EventLe);
    DistinctFromMultiset(s, Sort(s, EventLe), events);
  }

  // ---- parents first

  ghost predicate ParentsFirst(s: seq<Event>) {
    forall i, r :: 0 <= i < |s| && r in s[i].refs ==> exists j :: 0 <= j < i && s[j].id == r
  }

  /** Parents rank strictly before their children in the sort key. */
  ghost predicate KeysFollowEdges(events: Events) {
    forall id, r :: id in events && r in events[id].refs ==> r in events && !EventLe(events[id], events[r])
  }

  /** The Lamport rule: a child's timestamp exceeds its parents'. */
  ghost predicate Lamport(events: Events) {
    forall id, r :: id in events && r in events[id].refs ==> r in events && events[r].timestamp < events[id].timestamp
  }

  lemma LamportKeys(events: Events)
    requires Lamport(events)
    ensures KeysFollowEdges(events)
  {
  }

  /** The causal order puts parents before children exactly when the sort keys do. */
  lemma ParentsFirstIffKeys(s: seq<Event>, events: Events)
    requires Causal(events) && IsCausalOrder(s, events)
    ensures ParentsFirst(s) <==> KeysFollowEdges(events)
  {
    EventOrder();
    if KeysFollowEdges(events) {
      forall i, r | 0 <= i < |s| && r in s[i].refs
        ensures exists j :: 0 <= j < i && s[j].id == r
      {
        assert events[s[i].id] == s[i];
        var j :| 0 <= j < |s| && s[j] == events[r];
        assert !EventLe(s[i], s[j]);
      }
    }
    if ParentsFirst(s) {
      forall id, r | id in events && r in events[id].refs
        ensures r in events && !EventLe(events[id], events[r])
      {
        var i :| 0 <= i < |s| && s[i] == events[id];
        var j :| 0 <= j < i && s[j].id == r;
        assert EventLe(s[j], s[i]);
        assert s[j] in s;
      }
    }
  }

  /** Under the Lamport rule the causal order puts every parent before its children. */
  lemma LamportParentsFirst(s: seq<Event>, events: Events)
    requires Causal(events) && IsCausalOrder(s, events) && Lamport(events)
    ensures ParentsFirst(s)
  {
    LamportKeys(events);
    ParentsFirstIffKeys(s, events);
  }

  // ---- counting references

  ghost function SetOf(s: seq<EventID>): set<EventID> {
    set x | x in s
  }

  ghost predicate NoRepeatedRefs(events: Events) {
    forall id :: id in events ==> Distinct(events[id].refs)
  }

  lemma {:induction false} SetOfSize(s: seq<EventID>)
    ensures |SetOf(s)| <= |s|
    ensures |SetOf(s)| == |s| <==> Distinct(s)
  {
    if s != [] {
      var front, last := s[..|s| - 1], s[|s| - 1];
      SetOfSize(front);
      assert s == front + [last];
      if last in front {
        assert SetOf(s) == SetOf(front);
        var i :| 0 <= i < |front| && front[i] == last;
        assert s[i] == s[|s| - 1];
      } else {
        assert SetOf(s) == SetOf(front) + {last};
        assert Distinct(front) <==> Distinct(s);
      }
    }
  }

  /** References not accounted for by the emitted parents. A repeated reference counts each time, its parent once. */
  ghost function Remaining(refs: seq<EventID>, done: set<EventID>): int {
    |refs| - |done * SetOf(refs)|
  }

  lemma RemainingZero(refs: seq<EventID>, done: set<EventID>)
    ensures Remaining(refs, done) >= 0
    ensures Remaining(refs, done) == 0 <==> Distinct(refs) && SetOf(refs) <= done
  {
    SetOfSize(refs);
    var met := done * SetOf(refs);
    SubsetSizes(met, SetOf(refs));
    assert met == SetOf(refs) <==> SetOf(refs) <= done;
  }

  lemma RemainingStep(refs: seq<EventID>, done: set<EventID>, cur: EventID)
    requires cur !in done
    ensures Remaining(refs, done + {cur}) == Remaining(refs, done) - (if cur in refs then 1 else 0)
    ensures cur in refs ==> Remaining(refs, done) > 0
  {
    if cur in refs {
      assert (done + {cur}) * SetOf(refs) == done * SetOf(refs) + {cur};
      RemainingZero(refs, done);
    } else {
      assert (done + {cur}) * SetOf(refs) == done * SetOf(refs);
    }
  }

  // ---- Kahn's loop over the forward edges

  ghost function Ready(deg: map<EventID, int>): set<EventID> {
    set id | id in deg && deg[id] == 0
  }

  ghost predicate Degrees(events: Events, deg: map<EventID, int>, done: set<EventID>) {
    deg.Keys == events.Keys && forall id :: id in events ==> deg[id] == Remaining(events[id].refs, done)
  }

  /** In-degrees count what the emitted events leave; emitted and queued together are the events at zero. */
  ghost predicate Kahn(events: Events, deg: map<EventID, int>, done: seq<EventID>, queue: seq<EventID>) {
    Degrees(events, deg, SetOf(done)) && Listing(done + queue, Ready(deg))
  }

  method Roots(deg: map<EventID, int>) returns (queue: seq<EventID>)
    ensures Listing(queue, Ready(deg))
  {
    queue := [];
    var todo := deg.Keys;
    while todo != {}
      invariant todo <= deg.Keys
      invariant Listing(queue, Ready(deg) - todo)
    {
      var id :| id in todo;
      if deg[id] == 0 {
        ListingGrows(queue, Ready(deg) - todo, id);
        assert Ready(deg) - todo + {id} == Ready(deg) - (todo - {id});
        queue := queue + [id];
      } else {
        assert Ready(deg) - todo == Ready(deg) - (todo - {id});
      }
      todo := todo - {id};
    }
    assert Ready(deg) - {} == Ready(deg);
  }

  /** In-degrees while the children of `cur` are being released: those in `left` still wait. */
  ghost predicate Releasing(events: Events, deg: map<EventID, int>, done: seq<EventID>, cur: EventID,
                            left: set<EventID>)
  {
    && deg.Keys == events.Keys
    && forall id :: id in events ==>
         deg[id] == Remaining(events[id].refs, SetOf(done + [cur])) + (if id in left then 1 else 0)
  }

  lemma ReleasingStarts(events: Events, deg: map<EventID, int>, done: seq<EventID>, queue: seq<EventID>)
    requires Kahn(events, deg, done, queue) && queue != []
    ensures queue[0] in events && queue[0] !in done
    ensures Releasing(events, deg, done, queue[0], ChildrenOf(events, queue[0]))
    ensures Listing(done + [queue[0]] + queue[1..], Ready(deg))
  {
    var cur := queue[0];
    HeadIsNew(done, queue, Ready(deg));
    assert SetOf(done + [cur]) == SetOf(done) + {cur};
    forall id | id in events
      ensures deg[id] == Remaining(events[id].refs, SetOf(done + [cur])) +
                         (if id in ChildrenOf(events, cur) then 1 else 0)
    {
      RemainingStep(events[id].refs, SetOf(done), cur);
    }
  }

  lemma ReleaseOne(events: Events, deg: map<EventID, int>, done: seq<EventID>, cur: EventID, left: set<EventID>,
                   c: EventID)
    requires Releasing(events, deg, done, cur, left) && left <= events.Keys && c in left
    ensures c !in Ready(deg)
    ensures Releasing(events, deg[c := deg[c] - 1], done, cur, left - {c})
    ensures Ready(deg[c := deg[c] - 1]) == Ready(deg) + if deg[c] == 1 then {c} else {}
  {
    RemainingZero(events[c].refs, SetOf(done + [cur]));
  }

  /** Takes `cur` off every child's count and queues the children that reach zero. */
  method Release(events: Events, children: set<EventID>, cur: EventID, deg: map<EventID, int>, queue: seq<EventID>,
                 ghost done: seq<EventID>)
    returns (deg': map<EventID, int>, queue': seq<EventID>)
    requires children <= events.Keys
    requires Releasing(events, deg, done, cur, children)
    requires Listing(done + [cur] + queue, Ready(deg))
    ensures Kahn(events, deg', done + [cur], queue')
  {
    deg', queue' := deg, queue;
    var left := children;
    while left != {}
      invariant left <= children
      invariant Releasing(events, deg', done, cur, left)
      invariant Listing(done + [cur] + queue', Ready(deg'))
    {
      var c :| c in left;
      ReleaseOne(events, deg', done, cur, left, c);
      ghost var before := Ready(deg');
      deg' := deg'[c := deg'[c] - 1];
      if deg'[c] == 0 {
        ListingGrows(done + [cur] + queue', before, c);
        assert done + [cur] + queue' + [c] == done + [cur] + (queue' + [c]);
        queue' := queue' + [c];
      }
      left := left - {c};
    }
  }

  /** Nothing is left over exactly when no event repeats a reference. */
  lemma KahnEnds(events: Events, deg: map<EventID, int>, done: seq<EventID>)
    requires Causal(events) && Kahn(events, deg, done, [])
    ensures SetOf(done) == events.Keys <==> NoRepeatedRefs(events)
    ensures Distinct(done) && SetOf(done) <= events.Keys
  {
    assert done + [] == done;
    assert SetOf(done) == Ready(deg);
    forall id | id in events
      ensures id in done <==> Distinct(events[id].refs) && SetOf(events[id].refs) <= SetOf(done)
    {
      RemainingZero(events[id].refs, SetOf(done));
    }
    if NoRepeatedRefs(events) {
      var rank :| Ranked(Backward(events), rank);
      forall id | id in events
        ensures id in done
      {
        AllEmitted(events, rank, SetOf(done), id);
      }
    }
  }

  lemma {:induction false} AllEmitted(events: Events, rank: map<string, nat>, done: set<EventID>, id: EventID)
    requires Causal(events) && Ranked(Backward(events), rank) && id in events
    requires forall x :: x in events && SetOf(events[x].refs) <= done ==> x in done
    ensures id in done
    decreases rank[id]
  {
    forall r | r in events[id].refs
      ensures r in done
    {
      assert r in Backward(events)[id];
      AllEmitted(events, rank, done, r);
    }
  }

  lemma EmittedEnumerate(events: Events, done: seq<EventID>, result: seq<Event>)
    requires Causal(events) && Distinct(done) && SetOf(done) == events.Keys
    requires Emitted(events, done, result)
    ensures Enumerates(result, events)
  {
    forall id | id in events
      ensures events[id] in result
    {
      assert id in SetOf(done);
      var i :| 0 <= i < |done| && done[i] == id;
      assert result[i] == events[id];
    }
  }

  lemma KahnStarts(events: Events, deg: map<EventID, int>, queue: seq<EventID>)
    requires deg == map id | id in events :: |events[id].refs|
    requires Listing(queue, Ready(deg))
    ensures Kahn(events, deg, [], queue)
  {
    assert [] + queue == queue;
    assert SetOf([]) == {};
    DegreesStart(events, deg);
  }

  lemma DegreesStart(events: Events, deg: map<EventID, int>)
    requires deg == map id | id in events :: |events[id].refs|
    ensures Degrees(events, deg, {})
  {
    forall id | id in events
      ensures deg[id] == Remaining(events[id].refs, {})
    {
      NothingMet(events[id].refs);
    }
  }

  lemma NothingMet(refs: seq<EventID>)
    ensures Remaining(refs, {}) == |refs|
  {
    assert {} * SetOf(refs) == {};
  }

  ghost predicate Emitted(events: Events, done: seq<EventID>, result: seq<Event>) {
    && |result| == |done|
    && forall i :: 0 <= i < |done| ==> done[i] in events && result[i] == events[done[i]]
  }

  ghost function Unseen(events: Events, done: seq<EventID>): set<EventID> {
    set x | x in events && x !in done
  }

  lemma EmittedGrows(events: Events, done: seq<EventID>, result: seq<Event>, cur: EventID)
    requires Emitted(events, done, result) && cur in events && cur !in done
    ensures Emitted(events, done + [cur], result + [events[cur]])
    ensures Unseen(events, done + [cur]) == Unseen(events, done) - {cur}
    ensures cur in Unseen(events, done)
  {
  }

  ghost predicate ChildrenHeld(events: Events, children: map<EventID, set<EventID>>) {
    forall p :: p in events ==> p in children && children[p] == ChildrenOf(events, p)
  }

  method EmitOne(events: Events, children: map<EventID, set<EventID>>, deg: map<EventID, int>, queue: seq<EventID>,
                 ghost done: seq<EventID>)
    returns (deg': map<EventID, int>, queue': seq<EventID>)
    requires ChildrenHeld(events, children) && Kahn(events, deg, done, queue) && queue != []
    ensures queue[0] in events && queue[0] !in done && Kahn(events, deg', done + [queue[0]], queue')
  {
    ReleasingStarts(events, deg, done, queue);
    deg', queue' := Release(events, children[queue[0]], queue[0], deg, queue[1..], done);
  }

  /** Emits events as their parents run out. */
  method Emit(events: Events, children: map<EventID, set<EventID>>)
    returns (result: seq<Event>, ghost done: seq<EventID>, ghost deg: map<EventID, int>)
    requires ChildrenHeld(events, children)
    ensures Kahn(events, deg, done, []) && Emitted(events, done, result)
  {
    var counts := map id | id in events :: |events[id].refs|;
    var queue := Roots(counts);
    KahnStarts(events, counts, queue);
    result, done := [], [];
    while queue != []
      invariant Kahn(events, counts, done, queue) && Emitted(events, done, result)
      decreases Unseen(events, done)
    {
      var cur := queue[0];
      counts, queue := EmitOne(events, children, counts, queue, done);
      EmittedGrows(events, done, result, cur);
      result := result + [events[cur]];
      done := done + [cur];
    }
    deg := counts;
  }

  /** All events in causal order. The reported cycle is never one: the sort fails exactly when some event names a
  parent twice, because each repeat is counted but every parent is taken off once. */
  method TopologicalSort(g: Graph) returns (r: Option<seq<Event>>)
    requires WellFormed(g)
    ensures r.Some? <==> NoRepeatedRefs(g.events)
    ensures r.Some? ==> IsCausalOrder(r.value, g.events)
  {
    var result, done, deg := Emit(g.events, g.children);
    KahnEnds(g.events, deg, done);
    SetOfSize(done);
    SubsetSizes(SetOf(done), g.events.Keys);
    if |result| != |g.events| {
      return None;
    }
    EmittedEnumerate(g.events, done, result);
    SortGivesCausalOrder(result, g.events);
    return Some(Sort(result, EventLe));
  }

  // ---- the cycle that is none

  /** A repeated reference stays, whatever is appended. */
  lemma RepeatStays(events: Events, events': Events)
    requires !NoRepeatedRefs(events) && forall id :: id in events ==> id in events' && events'[id] == events[id]
    ensures !NoRepeatedRefs(events')
  {
    var id :| id in events && !Distinct(events[id].refs);
    assert !Distinct(events'[id].refs);
  }

  const ROOT: Event := Event("a", [], 1, "s", "")
  const TWICE: Event := Event("b", ["a", "a"], 2, "s", "")

  /** A graph without a cycle, built by two accepted calls of `Add`, whose sort reports one. */
  method FalseCycleReported(crypto: Crypto) returns (d: DAG, r: Option<seq<Event>>)
    requires crypto.verify(ROOT) && crypto.verify(TWICE)
    ensures fresh(d) && d.Valid() && d.Durable() && d.events == map["a" := ROOT, "b" := TWICE] && r.None?
  {
    d := new DAG(crypto, map[]);
    var first := d.Add(ROOT);
    var second := d.Add(TWICE);
    assert !Distinct(d.events["b"].refs) by {
      assert TWICE.refs[0] == TWICE.refs[1];
    }
    r := TopologicalSort(d.View());
  }

  // ---- the in-place sort used at replay

  predicate Before(a: Event, b: Event) {
    a.timestamp < b.timestamp || (a.timestamp == b.timestamp && a.id != b.id && LexLe(a.id, b.id))
  }

  lemma BeforeIsNotLe(a: Event, b: Event)
    ensures Before(a, b) <==> !EventLe(b, a)
  {
    LexTotal(a.id, b.id, CharLt);
  }

  /** `s` with the element at `i` moved left to `j`. */
  ghost function Shifted(s: seq<Event>, j: nat, i: nat): (t: seq<Event>)
    requires j <= i < |s|
    ensures |t| == |s|
  {
    s[..j] + [s[i]] + s[j..i] + s[i + 1..]
  }

  lemma ShiftedNext(s: seq<Event>, j: nat, i: nat)
    requires 0 < j <= i < |s|
    ensures var t := Shifted(s, j, i);
      t[j] == s[i] && t[j - 1] == s[j - 1] && t[j := t[j - 1]][j - 1 := t[j]] == Shifted(s, j - 1, i)
  {
  }

  /** What the element at `i` has passed, it is strictly before. */
  ghost predicate Passed(s: seq<Event>, j: nat, i: nat)
    requires j <= i < |s|
  {
    forall k :: j <= k < i ==> !EventLe(s[k], s[i])
  }

  /** Swaps the element at `i` left past everything it is strictly before. */
  method SwapLeft(a: array<Event>, i: nat) returns (j: nat)
    requires i < a.Length
    modifies a
    ensures j <= i && a[..] == Shifted(old(a[..]), j, i) && Passed(old(a[..]), j, i)
    ensures j == 0 || EventLe(old(a[..])[j - 1], old(a[..])[i])
  {
    j := i;
    ghost var was := a[..];
    assert Shifted(was, i, i) == was;
    while j > 0 && Before(a[j], a[j - 1])
      invariant j <= i && a[..] == Shifted(was, j, i) && Passed(was, j, i)
    {
      ShiftedNext(was, j, i);
      ghost var now := a[..];
      assert a[j] == now[j] && a[j - 1] == now[j - 1];
      BeforeIsNotLe(a[j], a[j - 1]);
      a[j], a[j - 1] := a[j - 1], a[j];
      assert a[..] == now[j := now[j - 1]][j - 1 := now[j]];
      j := j - 1;
    }
    if j > 0 {
      ShiftedNext(was, j, i);
      assert a[j] == a[..][j] && a[j - 1] == a[..][j - 1];
      BeforeIsNotLe(a[j], a[j - 1]);
    }
  }

  lemma ShiftedInserts(s: seq<Event>, j: nat, i: nat)
    requires j <= i < |s| && Passed(s, j, i) && (j == 0 || EventLe(s[j - 1], s[i]))
    ensures Shifted(s, j, i) == Insert(s[..i], s[i], EventLe) + s[i + 1..]
  {
    InsertAt(s[..i], s[i], EventLe, j);
    assert s[..i][..j] == s[..j] && s[..i][j..] == s[j..i];
  }

  /** ... which inserts it into the sorted prefix. */
  method SiftDown(a: array<Event>, i: nat)
    requires i < a.Length
    modifies a
    ensures a[..i + 1] == Insert(old(a[..i]), old(a[i]), EventLe)
    ensures forall k :: i < k < a.Length ==> a[k] == old(a[k])
  {
    ghost var was := a[..];
    var j := SwapLeft(a, i);
    ShiftedInserts(was, j, i);
    ghost var front := Insert(was[..i], was[i], EventLe);
    assert |front| == i + 1;
    assert a[..i + 1] == a[..][..i + 1] == front;
    assert a[i + 1..] == a[..][i + 1..] == was[i + 1..];
    assert forall k :: i < k < a.Length ==> a[k] == a[i + 1..][k - i - 1];
  }

  /** Insertion sort by (timestamp, ID), in place. */
  method SortEventsByCausalTS(a: array<Event>)
    modifies a
    ensures a[..] == Sort(old(a[..]), EventLe)
  {
    ghost var s := a[..];
    if a.Length == 0 {
      return;
    }
    var i := 1;
    SortOne(s);
    while i < a.Length
      invariant 1 <= i <= a.Length
      invariant a[..i] == Sort(s[..i], EventLe)
      invariant forall k :: i <= k < a.Length ==> a[k] == s[k]
    {
      SortNext(s, i);
      SiftDown(a, i);
      i := i + 1;
    }
    assert s[..i] == s && a[..i] == a[..];
  }

  lemma SortOne(s: seq<Event>)
    requires s != []
    ensures Sort(s[..1], EventLe) == s[..1]
  {
    assert s[..1][..0] == [];
    assert s[..1] == [] + [s[0]];
  }

  lemma SortNext(s: seq<Event>, i: nat)
    requires i < |s|
    ensures Sort(s[..i + 1], EventLe) == Insert(Sort(s[..i], EventLe), s[i], EventLe)
  {
    assert s[..i + 1][..i] == s[..i];
  }

  /** Listing the graph in any order and sorting it gives what `TopologicalSort` returns, whenever that succeeds. */
  lemma ReplaySortAgrees(listing: seq<Event>, events: Events, sorted: seq<Event>)
    requires Enumerates(listing, events) && IsCausalOrder(sorted, events)
    ensures Sort(listing, EventLe) == sorted
  {
    SortGivesCausalOrder(listing, events);
    CausalOrderUnique(Sort(listing, EventLe), sorted, events);
  }
}
