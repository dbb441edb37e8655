/** Rebuilding the graph from an unordered store: a second Kahn sort over the listed events, then replay. */
module DagReplay {
  import opened Collections
  import opened Walks
  import opened Dag
  import opened DagQueries
  import opened DagSort

  /** The listed events by ID, the last listing of an ID winning. */
  function ById(s: seq<Event>): Events {
    if s == [] then map[] else ById(s[..|s| - 1])[s[|s| - 1].id := s[|s| - 1]]
  }

  lemma {:induction false} ByIdKeys(s: seq<Event>)
    ensures forall id :: id in ById(s) ==> ById(s)[id].id == id && ById(s)[id] in s
    ensures forall e :: e in s ==> e.id in ById(s)
  {
    if s != [] {
      var front, last := s[..|s| - 1], s[|s| - 1];
      ByIdKeys(front);
      assert s == front + [last];
    }
  }

  /** A store keyed by event ID lists no ID twice, unless a value was damaged. */
  ghost predicate DistinctIds(s: seq<Event>) {
    forall i, j :: 0 <= i < j < |s| ==> s[i].id != s[j].id
  }

  lemma {:induction false} ByIdMeaning(s: seq<Event>)
    requires DistinctIds(s)
    ensures Enumerates(s, ById(s))
    ensures forall id :: id in ById(s) ==> ById(s)[id].id == id
  {
    if s != [] {
      var front, last := s[..|s| - 1], s[|s| - 1];
      ByIdMeaning(front);
      assert s == front + [last];
      assert last.id !in ById(front);
    }
  }

  lemma EnumerationById(s: seq<Event>, events: Events)
    requires Enumerates(s, events) && forall id :: id in events ==> events[id].id == id
    ensures ById(s) == events
  {
    ByIdMeaning(s);
    forall id
      ensures id in events <==> id in ById(s)
      ensures id in events ==> events[id] == ById(s)[id]
    {
      if id in events {
        assert events[id] in s;
      }
      if id in ById(s) {
        assert ById(s)[id] in s;
      }
    }
  }

  // ---- counting references into the listed set

  /** How many references name an event of `live`, repeats counted. */
  function CountIn(refs: seq<EventID>, live: set<EventID>): nat {
    if refs == [] then 0
    else CountIn(refs[..|refs| - 1], live) + if refs[|refs| - 1] in live then 1 else 0
  }

  lemma {:induction false} CountInZero(refs: seq<EventID>, live: set<EventID>)
    ensures CountIn(refs, live) == 0 <==> forall r :: r in refs ==> r !in live
  {
    if refs != [] {
      var front, last := refs[..|refs| - 1], refs[|refs| - 1];
      CountInZero(front, live);
      assert refs == front + [last];
    }
  }

  lemma {:induction false} CountInRemove(refs: seq<EventID>, live: set<EventID>, x: EventID)
    requires x in live
    ensures CountIn(refs, live) == CountIn(refs, live - {x}) + multiset(refs)[x]
  {
    if refs != [] {
      var front, last := refs[..|refs| - 1], refs[|refs| - 1];
      CountInRemove(front, live, x);
      assert refs == front + [last];
    }
  }

  // ---- the loop

  ghost predicate Kahn(byID: Events, deg: map<EventID, int>, done: seq<EventID>, queue: seq<EventID>) {
    && deg.Keys == byID.Keys
    && Listing(done + queue, Ready(deg))
    && forall id :: id in byID ==> deg[id] == CountIn(byID[id].refs, byID.Keys - SetOf(done))
  }

  /** Every in-set reference of an emitted event was emitted before it. */
  ghost predicate ParentsEmitted(byID: Events, done: seq<EventID>) {
    forall i, r :: 0 <= i < |done| && done[i] in byID && r in byID[done[i]].refs && r in byID ==> r in done[..i]
  }

  ghost function Kids(children: map<EventID, seq<EventID>>, p: EventID): seq<EventID> {
    if p in children then children[p] else []
  }

  /** The child lists hold each of the `counted` events once per reference to the parent. */
  ghost predicate Hooked(byID: Events, children: map<EventID, seq<EventID>>, counted: set<EventID>) {
    && counted <= byID.Keys
    && forall p, c :: p in byID ==>
         multiset(Kids(children, p))[c] == if c in counted then multiset(byID[c].refs)[p] else 0
  }

  /** How often `x` should be listed under `p` once `refs[..k]` of `c` have been entered. */
  ghost function Entries(byID: Events, counted: set<EventID>, c: EventID, k: nat, p: EventID, x: EventID): nat
    requires counted <= byID.Keys && c in byID && k <= |byID[c].refs|
  {
    if x in counted then multiset(byID[x].refs)[p] else if x == c then multiset(byID[c].refs[..k])[p] else 0
  }

  ghost predicate Hooking(byID: Events, children: map<EventID, seq<EventID>>, counted: set<EventID>, c: EventID, k: nat)
    requires counted <= byID.Keys && c in byID
  {
    && c !in counted && k <= |byID[c].refs|
    && forall p, x :: p in byID ==> multiset(Kids(children, p))[x] == Entries(byID, counted, c, k, p, x)
  }

  lemma EntriesNext(byID: Events, counted: set<EventID>, c: EventID, k: nat, p: EventID, x: EventID)
    requires counted <= byID.Keys && c in byID && c !in counted && k < |byID[c].refs|
    ensures Entries(byID, counted, c, k + 1, p, x) ==
            Entries(byID, counted, c, k, p, x) + if x == c && p == byID[c].refs[k] then 1 else 0
  {
    assert byID[c].refs[..k + 1] == byID[c].refs[..k] + [byID[c].refs[k]];
  }

  lemma HookRef(byID: Events, children: map<EventID, seq<EventID>>, counted: set<EventID>, c: EventID, k: nat)
    requires counted <= byID.Keys && c in byID
    requires Hooking(byID, children, counted, c, k) && k < |byID[c].refs|
    ensures var ref := byID[c].refs[k];
      Hooking(byID, if ref in byID then children[ref := Kids(children, ref) + [c]] else children, counted, c, k + 1)
  {
    var ref := byID[c].refs[k];
    var children' := if ref in byID then children[ref := Kids(children, ref) + [c]] else children;
    forall p, x | p in byID
      ensures multiset(Kids(children', p))[x] == Entries(byID, counted, c, k + 1, p, x)
    {
      EntriesNext(byID, counted, c, k, p, x);
      if p == ref {
        assert Kids(children', p) == Kids(children, p) + [c];
      } else {
        assert Kids(children', p) == Kids(children, p);
      }
    }
  }

  lemma HookDone(byID: Events, children: map<EventID, seq<EventID>>, counted: set<EventID>, c: EventID)
    requires counted <= byID.Keys && c in byID
    requires Hooking(byID, children, counted, c, |byID[c].refs|)
    ensures Hooked(byID, children, counted + {c})
  {
    assert byID[c].refs[..|byID[c].refs|] == byID[c].refs;
  }

  lemma HookStart(byID: Events, children: map<EventID, seq<EventID>>, counted: set<EventID>, c: EventID)
    requires Hooked(byID, children, counted) && c in byID && c !in counted
    ensures Hooking(byID, children, counted, c, 0)
  {
    assert byID[c].refs[..0] == [];
  }

  lemma CountNext(refs: seq<EventID>, k: nat, live: set<EventID>)
    requires k < |refs|
    ensures CountIn(refs[..k + 1], live) == CountIn(refs[..k], live) + if refs[k] in live then 1 else 0
  {
    assert refs[..k + 1][..k] == refs[..k];
  }

  /** Everything in a child list is listed. */
  ghost predicate KidsIn(byID: Events, children: map<EventID, seq<EventID>>) {
    forall p, c :: p in children && c in children[p] ==> c in byID
  }

  /** Counts the in-set references of one event and enters it under each of them. The `good` listings are those without
  a repeated ID. */
  method Hook(byID: Events, children: map<EventID, seq<EventID>>, e: Event, ghost counted: set<EventID>,
              ghost good: bool)
    returns (deps: nat, children': map<EventID, seq<EventID>>)
    requires e.id in byID && KidsIn(byID, children)
    requires good ==> byID[e.id] == e && e.id !in counted && Hooked(byID, children, counted)
    ensures deps == CountIn(e.refs, byID.Keys) && KidsIn(byID, children')
    ensures good ==> Hooked(byID, children', counted + {e.id})
  {
    deps, children' := 0, children;
    if good {
      HookStart(byID, children, counted, e.id);
    }
    for k := 0 to |e.refs|
      invariant deps == CountIn(e.refs[..k], byID.Keys) && KidsIn(byID, children')
      invariant good ==> Hooking(byID, children', counted, e.id, k)
    {
      if good {
        HookRef(byID, children', counted, e.id, k);
      }
      CountNext(e.refs, k, byID.Keys);
      deps, children' := HookOne(byID, children', e.refs[k], e.id, deps);
    }
    if good {
      HookDone(byID, children', counted, e.id);
    }
    assert e.refs[..|e.refs|] == e.refs;
  }

  method HookOne(byID: Events, children: map<EventID, seq<EventID>>, ref: EventID, c: EventID, deps: nat)
    returns (deps': nat, children': map<EventID, seq<EventID>>)
    requires c in byID && KidsIn(byID, children)
    ensures deps' == deps + if ref in byID then 1 else 0
    ensures children' == if ref in byID then children[ref := Kids(children, ref) + [c]] else children
    ensures KidsIn(byID, children')
  {
    deps', children' := deps, children;
    if ref in byID {
      deps' := deps + 1;
      children' := children[ref := (if ref in children then children[ref] else []) + [c]];
    }
  }

  /** In-degrees while the child list of `cur` is being worked off; `left` are the entries still to come. */
  ghost predicate Releasing(byID: Events, deg: map<EventID, int>, live: set<EventID>, left: multiset<EventID>) {
    && deg.Keys == byID.Keys
    && forall id :: id in byID ==> deg[id] == CountIn(byID[id].refs, live) + left[id]
  }

  lemma ReleasingStarts(byID: Events, children: map<EventID, seq<EventID>>, deg: map<EventID, int>,
                        done: seq<EventID>, queue: seq<EventID>)
    requires Kahn(byID, deg, done, queue) && queue != [] && Hooked(byID, children, byID.Keys)
    ensures queue[0] in byID
    ensures Releasing(byID, deg, byID.Keys - SetOf(done + [queue[0]]), multiset(Kids(children, queue[0])))
  {
    var cur := queue[0];
    HeadIsNew(done, queue, Ready(deg));
    var live := byID.Keys - SetOf(done);
    assert byID.Keys - SetOf(done + [cur]) == live - {cur};
    forall id | id in byID
      ensures deg[id] == CountIn(byID[id].refs, live - {cur}) + multiset(Kids(children, cur))[id]
    {
      CountInRemove(byID[id].refs, live, cur);
    }
  }

  lemma ReleaseOne(byID: Events, deg: map<EventID, int>, live: set<EventID>, left: multiset<EventID>, c: EventID)
    requires Releasing(byID, deg, live, left + multiset{c}) && c in byID
    ensures c in deg && c !in Ready(deg)
    ensures Releasing(byID, deg[c := deg[c] - 1], live, left)
    ensures Ready(deg[c := deg[c] - 1]) == Ready(deg) + if deg[c] == 1 then {c} else {}
  {
  }

  lemma NextKid(kids: seq<EventID>, k: nat)
    requires k < |kids|
    ensures kids[k] in kids && multiset(kids[k..]) == multiset(kids[k + 1..]) + multiset{kids[k]}
  {
    assert kids[k..] == [kids[k]] + kids[k + 1..];
  }

  ghost function Waiting(deg: map<EventID, int>): set<EventID> {
    set id | id in deg && deg[id] > 0
  }

  /** What can still be queued: each waiting event reaches zero at most once. */
  ghost function Work(deg: map<EventID, int>, queue: seq<EventID>): nat {
    |queue| + |Waiting(deg)|
  }

  lemma WorkShrinks(deg: map<EventID, int>, queue: seq<EventID>, c: EventID)
    requires c in deg
    ensures var deg' := deg[c := deg[c] - 1];
      Work(deg', if deg'[c] == 0 then queue + [c] else queue) <= Work(deg, queue)
  {
    var deg' := deg[c := deg[c] - 1];
    if deg'[c] == 0 {
      assert Waiting(deg') == Waiting(deg) - {c};
    } else {
      SubsetSizes(Waiting(deg'), Waiting(deg));
    }
  }

  ghost predicate AllIn(byID: Events, ids: seq<EventID>) {
    forall id :: id in ids ==> id in byID
  }

  /** Takes one off the count of each listed child, queueing those that reach zero. */
  method Release(byID: Events, kids: seq<EventID>, deg: map<EventID, int>, queue: seq<EventID>,
                 ghost done: seq<EventID>, ghost good: bool)
    returns (deg': map<EventID, int>, queue': seq<EventID>)
    requires AllIn(byID, kids) && AllIn(byID, queue) && deg.Keys == byID.Keys
    requires good ==> Releasing(byID, deg, byID.Keys - SetOf(done), multiset(kids)) && Listing(done + queue, Ready(deg))
    ensures AllIn(byID, queue') && deg'.Keys == byID.Keys && Work(deg', queue') <= Work(deg, queue)
    ensures good ==> Kahn(byID, deg', done, queue')
  {
    deg', queue' := deg, queue;
    assert kids[0..] == kids;
    for k := 0 to |kids|
      invariant AllIn(byID, queue') && deg'.Keys == byID.Keys && Work(deg', queue') <= Work(deg, queue)
      invariant good ==> Releasing(byID, deg', byID.Keys - SetOf(done), multiset(kids[k..]))
      invariant good ==> Listing(done + queue', Ready(deg'))
    {
      NextKid(kids, k);
      deg', queue' := ReleaseKid(byID, kids[k], deg', queue', done, multiset(kids[k + 1..]), good);
    }
    assert multiset(kids[|kids|..]) == multiset{};
  }

  method ReleaseKid(byID: Events, c: EventID, deg: map<EventID, int>, queue: seq<EventID>,
                    ghost done: seq<EventID>, ghost left: multiset<EventID>, ghost good: bool)
    returns (deg': map<EventID, int>, queue': seq<EventID>)
    requires c in byID && AllIn(byID, queue) && deg.Keys == byID.Keys
    requires good ==> Releasing(byID, deg, byID.Keys - SetOf(done), left + multiset{c})
    requires good ==> Listing(done + queue, Ready(deg))
    ensures AllIn(byID, queue') && deg'.Keys == byID.Keys && Work(deg', queue') <= Work(deg, queue)
    ensures good ==> Releasing(byID, deg', byID.Keys - SetOf(done), left) && Listing(done + queue', Ready(deg'))
  {
    WorkShrinks(deg, queue, c);
    if good {
      ReleaseOne(byID, deg, byID.Keys - SetOf(done), left, c);
      ListingGrows(done + queue, Ready(deg), c);
      assert done + queue + [c] == done + (queue + [c]);
    }
    deg', queue' := deg[c := deg[c] - 1], queue;
    if deg'[c] == 0 {
      queue' := queue + [c];
    }
  }

  // ---- the whole sort

  /** The IDs of the first `n` listed events. */
  ghost function IdsUpTo(events: seq<Event>, n: nat): set<EventID>
    requires n <= |events|
  {
    if n == 0 then {} else IdsUpTo(events, n - 1) + {events[n - 1].id}
  }

  lemma {:induction false} IdUpTo(events: seq<Event>, n: nat, id: EventID)
    requires n <= |events|
    ensures id in IdsUpTo(events, n) <==> exists k :: 0 <= k < n && events[k].id == id
  {
    if n > 0 {
      IdUpTo(events, n - 1, id);
    }
  }

  lemma IdsUpToNext(events: seq<Event>, i: nat)
    requires DistinctIds(events) && i < |events|
    ensures events[i].id !in IdsUpTo(events, i)
    ensures events[i].id in ById(events) && ById(events)[events[i].id] == events[i]
  {
    IdUpTo(events, i, events[i].id);
    ByIdMeaning(events);
    assert events[i] in events;
  }

  lemma AllIds(events: seq<Event>)
    ensures IdsUpTo(events, |events|) == ById(events).Keys
  {
    ByIdKeys(events);
    forall id
      ensures id in IdsUpTo(events, |events|) <==> id in ById(events)
    {
      IdUpTo(events, |events|, id);
      if id in ById(events) {
        var k :| 0 <= k < |events| && events[k] == ById(events)[id];
      }
      if k :| 0 <= k < |events| && events[k].id == id {
        assert events[k] in events;
      }
    }
  }

  /** The counts and child lists of the events in `ids`. */
  ghost predicate Prepared(byID: Events, deg: map<EventID, int>, children: map<EventID, seq<EventID>>,
                           ids: set<EventID>)
  {
    && deg.Keys == ids && Hooked(byID, children, ids)
    && forall id :: id in deg ==> id in byID && deg[id] == CountIn(byID[id].refs, byID.Keys)
  }

  /** Builds the counts and child lists of all listed events. */
  method Prepare(events: seq<Event>, ghost good: bool)
    returns (deg: map<EventID, int>, children: map<EventID, seq<EventID>>)
    requires good ==> DistinctIds(events)
    ensures deg.Keys == ById(events).Keys && KidsIn(ById(events), children)
    ensures good ==> Prepared(ById(events), deg, children, ById(events).Keys)
  {
    var byID := ById(events);
    ByIdKeys(events);
    deg, children := map[], map[];
    for i := 0 to |events|
      invariant deg.Keys == IdsUpTo(events, i) && KidsIn(byID, children)
      invariant good ==> Prepared(byID, deg, children, IdsUpTo(events, i))
    {
      assert events[i] in events;
      if good {
        IdsUpToNext(events, i);
      }
      deg, children := PrepareOne(byID, deg, children, events[i], IdsUpTo(events, i), good);
    }
    AllIds(events);
  }

  method PrepareOne(byID: Events, deg: map<EventID, int>, children: map<EventID, seq<EventID>>, e: Event,
                    ghost ids: set<EventID>, ghost good: bool)
    returns (deg': map<EventID, int>, children': map<EventID, seq<EventID>>)
    requires e.id in byID && deg.Keys == ids && KidsIn(byID, children)
    requires good ==> Prepared(byID, deg, children, ids) && byID[e.id] == e && e.id !in ids
    ensures deg'.Keys == ids + {e.id} && KidsIn(byID, children')
    ensures good ==> Prepared(byID, deg', children', ids + {e.id})
  {
    var deps: nat;
    deps, children' := Hook(byID, children, e, ids, good);
    deg' := deg[e.id := deps];
  }

  lemma SeedNext(events: seq<Event>, deg: map<EventID, int>, queue: seq<EventID>, i: nat)
    requires i < |events| && DistinctIds(events) && events[i].id in deg
    requires Listing(queue, Ready(deg) * IdsUpTo(events, i))
    ensures var id := events[i].id;
      Listing(if deg[id] == 0 then queue + [id] else queue, Ready(deg) * IdsUpTo(events, i + 1))
  {
    var id := events[i].id;
    var before, after := Ready(deg) * IdsUpTo(events, i), Ready(deg) * IdsUpTo(events, i + 1);
    assert after == before + if deg[id] == 0 then {id} else {};
    if deg[id] == 0 {
      IdsUpToNext(events, i);
      ListingGrows(queue, before, id);
    }
  }

  lemma IdListed(events: seq<Event>, i: nat)
    requires i < |events|
    ensures events[i].id in ById(events)
  {
    assert events[i] in events;
    ByIdKeys(events);
  }

  lemma SeedDone(events: seq<Event>, deg: map<EventID, int>)
    requires deg.Keys == ById(events).Keys
    ensures Ready(deg) * IdsUpTo(events, |events|) == Ready(deg)
  {
    AllIds(events);
  }

  /** The events at zero, in listing order. */
  method Seed(events: seq<Event>, deg: map<EventID, int>, ghost good: bool) returns (queue: seq<EventID>)
    requires deg.Keys == ById(events).Keys && (good ==> DistinctIds(events))
    ensures AllIn(ById(events), queue) && (good ==> Listing(queue, Ready(deg)))
  {
    queue := [];
    for i := 0 to |events|
      invariant AllIn(ById(events), queue)
      invariant good ==> Listing(queue, Ready(deg) * IdsUpTo(events, i))
    {
      IdListed(events, i);
      if good {
        SeedNext(events, deg, queue, i);
      }
      if deg[events[i].id] == 0 {
        queue := queue + [events[i].id];
      }
    }
    SeedDone(events, deg);
  }

  lemma EmitParents(byID: Events, deg: map<EventID, int>, done: seq<EventID>, cur: EventID)
    requires ParentsEmitted(byID, done) && cur in byID && cur in deg && deg[cur] == 0
    requires deg[cur] == CountIn(byID[cur].refs, byID.Keys - SetOf(done))
    ensures ParentsEmitted(byID, done + [cur])
  {
    CountInZero(byID[cur].refs, byID.Keys - SetOf(done));
    var next := done + [cur];
    forall i, r | 0 <= i < |next| && next[i] in byID && r in byID[next[i]].refs && r in byID
      ensures r in next[..i]
    {
      if i < |done| {
        assert next[..i] == done[..i];
      } else {
        assert next[..i] == done;
      }
    }
  }

  /** One event taken off the queue: what it needs and what it leaves. */
  lemma DrainStep(byID: Events, children: map<EventID, seq<EventID>>, deg: map<EventID, int>, done: seq<EventID>,
                  queue: seq<EventID>, sorted: seq<Event>)
    requires Kahn(byID, deg, done, queue) && queue != [] && Hooked(byID, children, byID.Keys)
    requires ParentsEmitted(byID, done) && Emitted(byID, done, sorted)
    ensures var cur := queue[0];
      && cur in byID && ParentsEmitted(byID, done + [cur]) && Emitted(byID, done + [cur], sorted + [byID[cur]])
      && Releasing(byID, deg, byID.Keys - SetOf(done + [cur]), multiset(Kids(children, cur)))
      && Listing(done + [cur] + queue[1..], Ready(deg))
  {
    var cur := queue[0];
    HeadIsNew(done, queue, Ready(deg));
    ReleasingStarts(byID, children, deg, done, queue);
    EmitParents(byID, deg, done, cur);
    EmittedGrows(byID, done, sorted, cur);
  }

  /** Emits until the queue is empty, which happens on every listing. */
  method Drain(byID: Events, deg0: map<EventID, int>, children: map<EventID, seq<EventID>>, queue0: seq<EventID>,
               ghost good: bool)
    returns (sorted: seq<Event>, deg: map<EventID, int>, ghost done: seq<EventID>)
    requires deg0.Keys == byID.Keys && AllIn(byID, queue0) && KidsIn(byID, children)
    requires good ==> Kahn(byID, deg0, [], queue0) && Hooked(byID, children, byID.Keys)
    ensures deg.Keys == byID.Keys && Emitted(byID, done, sorted)
    ensures good ==> Kahn(byID, deg, done, []) && ParentsEmitted(byID, done)
  {
    var queue := queue0;
    deg, sorted, done := deg0, [], [];
    while queue != []
      invariant deg.Keys == byID.Keys && AllIn(byID, queue) && Emitted(byID, done, sorted)
      invariant good ==> Kahn(byID, deg, done, queue) && ParentsEmitted(byID, done)
      decreases Work(deg, queue)
    {
      var cur := queue[0];
      assert cur in queue;
      if good {
        DrainStep(byID, children, deg, done, queue, sorted);
      }
      sorted := sorted + [byID[cur]];
      done := done + [cur];
      var kids := if cur in children then children[cur] else [];
      assert AllIn(byID, queue[1..]);
      deg, queue := Release(byID, kids, deg, queue[1..], done, good);
    }
  }

  /** Emitted and skipped events share out the listing, each event once. */
  ghost predicate SharedOut(events: seq<Event>, sorted: seq<Event>, skipped: seq<Event>) {
    && DistinctIds(sorted) && DistinctIds(skipped)
    && (forall e :: e in events <==> e in sorted || e in skipped)
    && (forall e :: e in sorted ==> e !in skipped)
  }

  /** Every listed parent of an emitted event is emitted before it. */
  ghost predicate ParentsBefore(byID: Events, sorted: seq<Event>) {
    forall i, r :: 0 <= i < |sorted| && r in sorted[i].refs && r in byID ==>
      exists j :: 0 <= j < i && sorted[j].id == r
  }

  ghost predicate Waits(byID: Events, skipped: seq<Event>, e: Event) {
    exists r :: r in e.refs && r in byID && byID[r] in skipped
  }

  /** Whatever is skipped waits for something else that is skipped. */
  ghost predicate AllWait(byID: Events, skipped: seq<Event>) {
    forall e {:trigger Waits(byID, skipped, e)} :: e in skipped ==> Waits(byID, skipped, e)
  }

  ghost predicate SortedFrom(events: seq<Event>, sorted: seq<Event>, skipped: seq<Event>) {
    SharedOut(events, sorted, skipped) && ParentsBefore(ById(events), sorted) && AllWait(ById(events), skipped)
  }

  method CollectSkipped(events: seq<Event>, deg: map<EventID, int>) returns (skipped: seq<Event>)
    requires deg.Keys == ById(events).Keys
    ensures DistinctIds(events) ==> DistinctIds(skipped)
    ensures forall e :: e in skipped <==> e in events && e.id in deg && deg[e.id] > 0
  {
    ByIdKeys(events);
    skipped := [];
    for i := 0 to |events|
      invariant DistinctIds(events) ==> DistinctIds(skipped)
      invariant forall e :: e in skipped <==> e in events[..i] && e.id in deg && deg[e.id] > 0
    {
      assert events[..i + 1] == events[..i] + [events[i]];
      assert events[i] in events;
      if deg[events[i].id] > 0 {
        if DistinctIds(events) {
          DistinctIdsGrow(events, i, skipped);
        }
        skipped := skipped + [events[i]];
      }
    }
    assert events[..|events|] == events;
  }

  lemma DistinctIdsGrow(events: seq<Event>, i: nat, skipped: seq<Event>)
    requires DistinctIds(events) && i < |events| && DistinctIds(skipped)
    requires forall e :: e in skipped ==> e in events[..i]
    ensures DistinctIds(skipped + [events[i]])
  {
    forall k | 0 <= k < |skipped|
      ensures skipped[k].id != events[i].id
    {
      assert skipped[k] in skipped;
      var j :| 0 <= j < i && events[..i][j] == skipped[k];
    }
  }

  lemma SortedParents(byID: Events, done: seq<EventID>, sorted: seq<Event>)
    requires ParentsEmitted(byID, done) && Emitted(byID, done, sorted)
    requires forall id :: id in byID ==> byID[id].id == id
    ensures ParentsBefore(byID, sorted)
  {
    forall i, r | 0 <= i < |sorted| && r in sorted[i].refs && r in byID
      ensures exists j :: 0 <= j < i && sorted[j].id == r
    {
      assert r in done[..i];
      var j :| 0 <= j < i && done[..i][j] == r;
      assert sorted[j] == byID[r];
    }
  }

  lemma SkippedWait(events: seq<Event>, deg: map<EventID, int>, done: seq<EventID>, skipped: seq<Event>, e: Event)
    requires DistinctIds(events) && Kahn(ById(events), deg, done, [])
    requires forall x :: x in skipped <==> x in events && x.id in deg && deg[x.id] > 0
    requires e in skipped
    ensures Waits(ById(events), skipped, e)
  {
    var byID := ById(events);
    ByIdMeaning(events);
    assert done + [] == done;
    CountInZero(e.refs, byID.Keys - SetOf(done));
    var r :| r in e.refs && r in byID.Keys - SetOf(done);
    assert r !in Ready(deg);
    assert byID[r] in events;
  }

  lemma TopoSortMeaning(events: seq<Event>, deg: map<EventID, int>, done: seq<EventID>,
                        sorted: seq<Event>, skipped: seq<Event>)
    requires DistinctIds(events) && Kahn(ById(events), deg, done, [])
    requires ParentsEmitted(ById(events), done) && Emitted(ById(events), done, sorted)
    requires DistinctIds(skipped) && forall e :: e in skipped <==> e in events && e.id in deg && deg[e.id] > 0
    ensures SortedFrom(events, sorted, skipped)
  {
    ByIdMeaning(events);
    SortedParents(ById(events), done, sorted);
    assert AllWait(ById(events), skipped) by {
      forall e | e in skipped
        ensures Waits(ById(events), skipped, e)
      {
        SkippedWait(events, deg, done, skipped, e);
      }
    }
    Partitioned(events, deg, done, sorted, skipped);
  }

  lemma Partitioned(events: seq<Event>, deg: map<EventID, int>, done: seq<EventID>,
                    sorted: seq<Event>, skipped: seq<Event>)
    requires DistinctIds(events) && Kahn(ById(events), deg, done, []) && Emitted(ById(events), done, sorted)
    requires DistinctIds(skipped) && forall e :: e in skipped <==> e in events && e.id in deg && deg[e.id] > 0
    ensures SharedOut(events, sorted, skipped)
  {
    ByIdMeaning(events);
    assert done + [] == done;
    forall e
      ensures e in sorted <==> e in events && e.id in done
      ensures e in events ==> (e.id in done <==> deg[e.id] == 0)
    {
      EmittedIds(events, done, sorted, e);
      assert e.id in done <==> e.id in Ready(deg);
    }
    forall i, j | 0 <= i < j < |sorted|
      ensures sorted[i].id != sorted[j].id
    {
      assert done[i] != done[j];
    }
  }

  lemma EmittedIds(events: seq<Event>, done: seq<EventID>, sorted: seq<Event>, e: Event)
    requires DistinctIds(events) && Emitted(ById(events), done, sorted)
    ensures e in sorted <==> e in events && e.id in done
  {
    var byID := ById(events);
    ByIdMeaning(events);
    if e in sorted {
      var i :| 0 <= i < |sorted| && sorted[i] == e;
      assert done[i] == e.id;
    }
    if e in events && e.id in done {
      var i :| 0 <= i < |done| && done[i] == e.id;
      assert sorted[i] == byID[e.id] == e;
    }
  }

  /** If as much was emitted as was listed, nothing waits. */
  lemma NoneLeft(events: seq<Event>, deg: map<EventID, int>, done: seq<EventID>, sorted: seq<Event>)
    requires DistinctIds(events) && Kahn(ById(events), deg, done, []) && Emitted(ById(events), done, sorted)
    requires |sorted| >= |events|
    ensures forall e :: e in events && e.id in deg ==> deg[e.id] <= 0
  {
    var byID := ById(events);
    assert done + [] == done;
    SizeOfDistinct(done, SetOf(done));
    AllIds(events);
    IdsCount(events, |events|);
    SubsetSizes(SetOf(done), byID.Keys);
  }

  lemma {:induction false} IdsCount(events: seq<Event>, n: nat)
    requires n <= |events|
    ensures |IdsUpTo(events, n)| <= n
  {
    if n > 0 {
      IdsCount(events, n - 1);
    }
  }

  /** Kahn's algorithm over a store listing. References outside the listing do not count. It ends on every listing and
  emits listed events only; what more it does is said for listings without a repeated ID. */
  method TopoSort(events: seq<Event>) returns (sorted: seq<Event>, skipped: seq<Event>)
    ensures Listed(ById(events), sorted)
    ensures DistinctIds(events) ==> SortedFrom(events, sorted, skipped)
  {
    ghost var good := DistinctIds(events);
    var byID := ById(events);
    ByIdKeys(events);
    var deg, children := Prepare(events, good);
    var queue := Seed(events, deg, good);
    if good {
      assert Prepared(byID, deg, children, byID.Keys);
      assert [] + queue == queue;
      assert byID.Keys - SetOf([]) == byID.Keys;
    }
    ghost var done: seq<EventID>;
    sorted, deg, done := Drain(byID, deg, children, queue, good);
    skipped := [];
    if |sorted| < |events| {
      skipped := CollectSkipped(events, deg);
    } else if good {
      NoneLeft(events, deg, done, sorted);
    }
    if good {
      TopoSortMeaning(events, deg, done, sorted, skipped);
    }
  }

  ghost predicate Listed(byID: Events, sorted: seq<Event>) {
    forall k :: 0 <= k < |sorted| ==> sorted[k].id in byID && byID[sorted[k].id] == sorted[k]
  }

  // ---- what is skipped

  /** A skipped event cannot do without a cycle ahead of it: it waits on a skipped one, with less behind it. */
  lemma {:induction false} SkippedLoops(byID: Events, skipped: seq<Event>, e: Event)
    requires AllWait(byID, skipped) && e in skipped
    requires forall x :: x in skipped ==> x.id in byID && byID[x.id] == x
    requires forall id :: id in byID ==> byID[id].id == id
    ensures CycleAhead(Backward(byID), e.id)
    decreases |Behind(Backward(byID), e.id)|
  {
    var g := Backward(byID);
    if !CycleAhead(g, e.id) {
      assert Waits(byID, skipped, e);
      var r :| r in e.refs && r in byID && byID[r] in skipped;
      BehindShrinks(g, e.id, r);
      SkippedLoops(byID, skipped, byID[r]);
    }
  }

  /** An emitted event has no cycle ahead: its listed parents were emitted before it. */
  lemma {:induction false} EmittedLoopFree(byID: Events, sorted: seq<Event>, i: nat)
    requires ParentsBefore(byID, sorted) && Listed(byID, sorted) && i < |sorted|
    ensures !CycleAhead(Backward(byID), sorted[i].id)
    decreases i
  {
    var g := Backward(byID);
    if CycleAhead(g, sorted[i].id) {
      var p := ParentOfCycle(g, sorted[i].id);
      var q := ParentOfCycle(g, p);
      var j :| 0 <= j < i && sorted[j].id == p;
      EmittedLoopFree(byID, sorted, j);
    }
  }

  lemma SortedAreListed(events: seq<Event>, sorted: seq<Event>, skipped: seq<Event>)
    requires DistinctIds(events) && SharedOut(events, sorted, skipped)
    ensures Listed(ById(events), sorted) && Listed(ById(events), skipped)
  {
    ByIdMeaning(events);
    assert forall k :: 0 <= k < |sorted| ==> sorted[k] in sorted;
    assert forall k :: 0 <= k < |skipped| ==> skipped[k] in skipped;
  }

  /** The sort skips exactly the events from which references lead into a cycle. References to events that are not
  listed do not matter. */
  lemma SkippedIffLooped(events: seq<Event>, sorted: seq<Event>, skipped: seq<Event>, e: Event)
    requires DistinctIds(events) && SortedFrom(events, sorted, skipped) && e in events
    ensures e in skipped <==> CycleAhead(Backward(ById(events)), e.id)
  {
    ByIdMeaning(events);
    SortedAreListed(events, sorted, skipped);
    if e in skipped {
      SkippedLoops(ById(events), skipped, e);
    } else {
      var i :| 0 <= i < |sorted| && sorted[i] == e;
      EmittedLoopFree(ById(events), sorted, i);
    }
  }

  /** Nothing is skipped if and only if the listed events have no cycle. */
  lemma NothingSkipped(events: seq<Event>, sorted: seq<Event>, skipped: seq<Event>)
    requires DistinctIds(events) && SortedFrom(events, sorted, skipped)
    ensures skipped == [] <==> forall id :: !Reaches(Backward(ById(events)), id, id)
  {
    var g := Backward(ById(events));
    ByIdMeaning(events);
    if skipped != [] {
      SkippedIffLooped(events, sorted, skipped, skipped[0]);
    } else {
      forall id
        ensures !Reaches(g, id, id)
      {
        if Reaches(g, id, id) {
          var p := ParentOfCycle(g, id);
          SkippedIffLooped(events, sorted, skipped, ById(events)[id]);
        }
      }
    }
  }

  /** An event whose parent is not listed is emitted, not skipped. */
  lemma MissingParentEmitted(sorted: seq<Event>, skipped: seq<Event>)
    requires SortedFrom([Event("child", ["missing"], 1, "", "")], sorted, skipped)
    ensures skipped == [] && sorted == [Event("child", ["missing"], 1, "", "")]
  {
    var e := Event("child", ["missing"], 1, "", "");
    var events, byID := [e], ById([e]);
    assert byID == map["child" := e] by {
      assert events[..0] == [];
    }
    assert e in skipped ==> Waits(byID, skipped, e);
    SizeOfDistinct(skipped, {});
    SizeOfDistinct(sorted, {e});
    assert sorted[0] in sorted;
  }
}
