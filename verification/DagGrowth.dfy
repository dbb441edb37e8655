/** Which graphs can be grown by `Add`, and in which order: exactly the causal signed ones, parents first. */
module DagGrowth {
  import opened Walks
  import opened Dag
  import opened DagSort
  import opened DagReplay

  // ---- whole graphs

  /** `id` is among the first `k` of the list. */
  ghost predicate Precedes(list: seq<Event>, k: nat, id: EventID) {
    exists j :: 0 <= j < k && j < |list| && list[j].id == id
  }

  /** Every event is new, signed, and listed after all it refers to. */
  ghost predicate ParentsFirst(crypto: Crypto, list: seq<Event>) {
    forall k :: 0 <= k < |list| ==> Fits(crypto, list, k)
  }

  ghost predicate FitUpTo(crypto: Crypto, list: seq<Event>, n: nat)
    requires n <= |list|
  {
    forall k :: 0 <= k < n ==> Fits(crypto, list, k)
  }

  ghost predicate Fits(crypto: Crypto, list: seq<Event>, k: nat)
    requires k < |list|
  {
    && !Precedes(list, k, list[k].id) && IsSigned(crypto, list[k])
    && forall r :: r in list[k].refs ==> Precedes(list, k, r)
  }

  lemma {:induction false} IdsBefore(list: seq<Event>, id: EventID)
    ensures id in ById(list) <==> Precedes(list, |list|, id)
  {
    if list != [] {
      IdsBefore(list[..|list| - 1], id);
    }
  }

  lemma PrecedesPrefix(list: seq<Event>, n: nat, k: nat, id: EventID)
    requires k <= n <= |list|
    ensures Precedes(list[..n], k, id) <==> Precedes(list, k, id)
  {
    if j :| 0 <= j < k && list[j].id == id {
      assert list[..n][j].id == id;
    }
  }

  lemma FitsPrefix(crypto: Crypto, list: seq<Event>, n: nat, k: nat)
    requires k < n <= |list|
    ensures Fits(crypto, list[..n], k) <==> Fits(crypto, list, k)
  {
    forall id
      ensures Precedes(list[..n], k, id) <==> Precedes(list, k, id)
    {
      PrecedesPrefix(list, n, k, id);
    }
  }

  /** The next event fits exactly if it is new, signed and refers to what is there. */
  lemma FitsNext(crypto: Crypto, list: seq<Event>, k: nat)
    requires k < |list|
    ensures Fits(crypto, list, k) <==>
            && list[k].id !in ById(list[..k]) && IsSigned(crypto, list[k])
            && forall r :: r in list[k].refs ==> r in ById(list[..k])
  {
    forall id
      ensures id in ById(list[..k]) <==> Precedes(list, k, id)
    {
      IdsBefore(list[..k], id);
      PrecedesPrefix(list, k, k, id);
    }
  }

  lemma FitsIffCausal(crypto: Crypto, list: seq<Event>, k: nat)
    requires k < |list| && Causal(ById(list[..k]))
    ensures var events, e := ById(list[..k]), list[k];
      Fits(crypto, list, k) <==> e.id !in events && Causal(events[e.id := e]) && IsSigned(crypto, e)
  {
    FitsNext(crypto, list, k);
    if list[k].id !in ById(list[..k]) {
      CausalIffResolves(ById(list[..k]), list[k]);
    }
  }

  lemma FirstsPrefix(crypto: Crypto, list: seq<Event>, n: nat)
    requires n <= |list| && ParentsFirst(crypto, list)
    ensures ParentsFirst(crypto, list[..n])
  {
    forall k | 0 <= k < n
      ensures Fits(crypto, list[..n], k)
    {
      FitsPrefix(crypto, list, n, k);
    }
  }

  lemma ByIdNext(list: seq<Event>, i: nat)
    requires i < |list|
    ensures ById(list[..i + 1]) == ById(list[..i])[list[i].id := list[i]]
  {
    assert list[..i + 1][..i] == list[..i];
  }

  method AddNext(d: DAG, list: seq<Event>, i: nat) returns (ok: bool)
    requires i < |list| && d.Valid() && d.Durable() && d.events == ById(list[..i])
    modifies d
    ensures d.Valid() && d.Durable() && (ok <==> Fits(d.crypto, list, i))
    ensures ok ==> d.events == ById(list[..i + 1])
  {
    FitsIffCausal(d.crypto, list, i);
    ByIdNext(list, i);
    var err := d.Add(list[i]);
    return err.None?;
  }

  /** Adds the events one by one to an empty graph: all are accepted exactly if parents come first, and then the graph
  holds them and nothing else. */
  method Grow(crypto: Crypto, list: seq<Event>) returns (d: DAG, ok: bool)
    ensures fresh(d) && d.Valid() && d.Durable() && d.crypto == crypto
    ensures ok <==> ParentsFirst(crypto, list)
    ensures ok ==> d.events == ById(list)
  {
    d := new DAG(crypto, map[]);
    for i := 0 to |list|
      invariant fresh(d) && d.Valid() && d.Durable() && d.crypto == crypto
      invariant d.events == ById(list[..i]) && FitUpTo(crypto, list, i)
    {
      ok := AddNext(d, list, i);
      if !ok {
        return;
      }
    }
    assert list[..|list|] == list;
    ok := true;
  }

  // ---- exactly the causal signed graphs

  lemma {:induction false} Grown(crypto: Crypto, list: seq<Event>)
    requires ParentsFirst(crypto, list)
    ensures Causal(ById(list)) && Signed(crypto, ById(list))
  {
    if list == [] {
      assert Ranked(Backward(map[]), map[]);
    } else {
      var n := |list| - 1;
      FirstsPrefix(crypto, list, n);
      Grown(crypto, list[..n]);
      assert Fits(crypto, list, n);
      FitsNext(crypto, list, n);
      CausalGrows(ById(list[..n]), list[n]);
    }
  }

  lemma {:induction false} HighestRanked(rank: map<string, nat>, ids: set<EventID>) returns (top: EventID)
    requires ids != {} && ids <= rank.Keys
    ensures top in ids && forall id :: id in ids ==> rank[id] <= rank[top]
    decreases |ids|
  {
    top :| top in ids;
    if ids != {top} {
      assert ids - {top} != {};
      var other := HighestRanked(rank, ids - {top});
      if rank[other] > rank[top] {
        top := other;
      }
    }
  }

  /** Some event of a causal graph is referred to by none; without it the graph is causal. */
  lemma LastAdded(events: Events) returns (id: EventID)
    requires Causal(events) && events != map[]
    ensures id in events && Causal(events - {id}) && forall r :: r in events[id].refs ==> r in events - {id}
  {
    var rank :| Ranked(Backward(events), rank);
    assert Backward(events).Keys == events.Keys;
    id := HighestRanked(rank, events.Keys);
    var rest := events - {id};
    forall x, r | x in events && r in events[x].refs
      ensures r != id && r in events
    {
      assert r in Backward(events)[x];
    }
    forall x, y | x in Backward(rest) && y in Backward(rest)[x]
      ensures y in rank && rank[y] < rank[x]
    {
      assert y in Backward(events)[x];
    }
    assert Ranked(Backward(rest), rank);
  }

  lemma FirstsGrow(crypto: Crypto, list: seq<Event>, e: Event)
    requires ParentsFirst(crypto, list) && e.id !in ById(list) && IsSigned(crypto, e)
    requires forall r :: r in e.refs ==> r in ById(list)
    ensures ParentsFirst(crypto, list + [e]) && ById(list + [e]) == ById(list)[e.id := e]
  {
    var longer, n := list + [e], |list|;
    assert longer[..n] == list && longer[..n + 1] == longer && longer[n] == e;
    FitsNext(crypto, longer, n);
    ByIdNext(longer, n);
    forall k | 0 <= k < n
      ensures Fits(crypto, longer, k)
    {
      FitsPrefix(crypto, longer, n, k);
    }
  }

  lemma Without(events: Events, id: EventID)
    requires id in events
    ensures |events - {id}| < |events| && (events - {id})[id := events[id]] == events
  {
    assert events.Keys == (events - {id}).Keys + {id};
    assert |events| == |events.Keys| && |events - {id}| == |(events - {id}).Keys|;
  }

  lemma {:induction false} SomeOrder(crypto: Crypto, events: Events) returns (list: seq<Event>)
    requires Causal(events) && Signed(crypto, events)
    ensures ParentsFirst(crypto, list) && ById(list) == events
    decreases |events|
  {
    list := [];
    if events != map[] {
      var id := LastAdded(events);
      Without(events, id);
      var rest := SomeOrder(crypto, events - {id});
      FirstsGrow(crypto, rest, events[id]);
      list := rest + [events[id]];
    }
  }

  /** The graphs that calls of `Add` can build are exactly the causal signed ones. */
  lemma GrownIffCausal(crypto: Crypto, events: Events)
    ensures (exists list :: ParentsFirst(crypto, list) && ById(list) == events) <==>
            Causal(events) && Signed(crypto, events)
  {
    if list :| ParentsFirst(crypto, list) && ById(list) == events {
      Grown(crypto, list);
    } else if Causal(events) && Signed(crypto, events) {
      var list := SomeOrder(crypto, events);
    }
  }

  /** Any listing of such a graph with parents first will do. */
  lemma AnyOrderGrows(crypto: Crypto, events: Events, list: seq<Event>)
    requires Causal(events) && Signed(crypto, events) && Enumerates(list, events) && ParentsBefore(events, list)
    ensures ParentsFirst(crypto, list) && ById(list) == events
  {
    EnumerationById(list, events);
    forall k | 0 <= k < |list|
      ensures Fits(crypto, list, k)
    {
      assert list[k] in list;
      RefsPrecede(events, list, k);
    }
  }

  lemma RefsPrecede(events: Events, list: seq<Event>, k: nat)
    requires Causal(events) && Enumerates(list, events) && ParentsBefore(events, list) && k < |list|
    ensures forall r :: r in list[k].refs ==> Precedes(list, k, r)
  {
    assert list[k] in list;
    assert events[list[k].id] == list[k];
    forall r | r in list[k].refs
      ensures Precedes(list, k, r)
    {
      assert r in events[list[k].id].refs;
      assert r in events;
    }
  }
}
