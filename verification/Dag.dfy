/** The append-only causal graph: events, the forward edges and the frontier kept beside them. */
module Dag {
  import opened Collections
  import opened Walks

  type EventID = string

  /** `body` stands for the fields the graph never looks at. */
  datatype Event = Event(id: EventID, refs: seq<EventID>, timestamp: nat, signature: string, body: string)

  type Events = map<EventID, Event>

  datatype Graph = Graph(events: Events, children: map<EventID, set<EventID>>, tips: set<EventID>)

  datatype Error =
    DuplicateEvent | MissingRef | MissingSignature | InvalidSignature | IdMismatch | NotFound | CycleDetected

  /** Signature verification and content hashing, of which only determinism is known. `computeId` yields `None` where
  the content cannot be serialised. */
  datatype Crypto = Crypto(verify: Event -> bool, computeId: Event -> Option<EventID>)

  ghost function Backward(events: Events): Edges {
    map id | id in events :: events[id].refs
  }

  ghost function ChildrenOf(events: Events, p: EventID): set<EventID> {
    set c | c in events && p in events[c].refs
  }

  ghost function Childless(events: Events): set<EventID> {
    set p | p in events && ChildrenOf(events, p) == {}
  }

  /** Events are filed under their own ID, refer only to stored events, and never circularly. */
  ghost predicate Causal(events: Events) {
    && (forall id :: id in events ==> events[id].id == id)
    && (forall id, r :: id in events && r in events[id].refs ==> r in events)
    && (exists rank :: Ranked(Backward(events), rank))
  }

  ghost predicate IsSigned(crypto: Crypto, e: Event) {
    e.signature != [] && crypto.verify(e)
  }

  ghost predicate Signed(crypto: Crypto, events: Events) {
    forall id :: id in events ==> IsSigned(crypto, events[id])
  }

  /** The forward edges and the frontier are exactly what the backward references say. */
  ghost predicate Indexed(g: Graph) {
    && g.children.Keys == g.events.Keys
    && (forall p :: p in g.events ==> g.children[p] == ChildrenOf(g.events, p))
    && g.tips == Childless(g.events)
  }

  ghost predicate WellFormed(g: Graph) {
    Causal(g.events) && Indexed(g)
  }

  /** A well-formed graph is determined by its events. */
  lemma EventsDetermineGraph(g: Graph, h: Graph)
    requires WellFormed(g) && WellFormed(h) && g.events == h.events
    ensures g == h
  {
    assert g.children == h.children;
  }

  lemma CausalGrows(events: Events, e: Event)
    requires Causal(events) && e.id !in events
    requires forall r :: r in e.refs ==> r in events
    ensures Causal(events[e.id := e])
  {
    var rank :| Ranked(Backward(events), rank);
    var top := Above(rank, set r | r in e.refs);
    RankedGrows(events, e, rank, top);
  }

  lemma RankedGrows(events: Events, e: Event, rank: map<string, nat>, top: nat)
    requires Ranked(Backward(events), rank) && e.id !in events
    requires forall id, r :: id in events && r in events[id].refs ==> r in events
    requires forall r :: r in e.refs ==> r in events && rank[r] < top
    ensures Ranked(Backward(events[e.id := e]), rank[e.id := top])
  {
    var g, g' := Backward(events), Backward(events[e.id := e]);
    forall x, y | x in g' && y in g'[x]
      ensures y in rank[e.id := top] && rank[e.id := top][y] < rank[e.id := top][x]
    {
      if x != e.id {
        assert y in g[x] && y in events;
      }
    }
  }

  ghost function Above(rank: map<string, nat>, s: set<string>): (top: nat)
    requires s <= rank.Keys
    ensures forall x :: x in s ==> rank[x] < top
  {
    if s == {} then 0 else
    var x :| x in s;
    var rest := Above(rank, s - {x});
    if rest <= rank[x] then rank[x] + 1 else rest
  }

  lemma RefsResolve(events: Events, e: Event)
    requires Causal(events[e.id := e]) && e.id !in events
    ensures forall r :: r in e.refs ==> r in events
  {
    var events' := events[e.id := e];
    var rank :| Ranked(Backward(events'), rank);
    forall r | r in e.refs
      ensures r in events
    {
      assert events'[e.id] == e && r in events';
      assert r in Backward(events')[e.id];
    }
  }

  /** A new event leaves the graph causal exactly when its references resolve. */
  lemma CausalIffResolves(events: Events, e: Event)
    requires Causal(events) && e.id !in events
    ensures Causal(events[e.id := e]) <==> forall r :: r in e.refs ==> r in events
  {
    if Causal(events[e.id := e]) {
      RefsResolve(events, e);
    }
    if forall r :: r in e.refs ==> r in events {
      CausalGrows(events, e);
    }
  }

  /** The state after the commit loop has handled `refs[..i]` of a new event. */
  ghost predicate Linking(g: Graph, e: Event, i: nat, children: map<EventID, set<EventID>>, tips: set<EventID>) {
    && i <= |e.refs|
    && children.Keys == g.events.Keys + {e.id}
    && (forall p :: p in g.events ==>
          children[p] == ChildrenOf(g.events, p) + (if p in e.refs[..i] then {e.id} else {}))
    && children[e.id] == {}
    && tips == Childless(g.events) - (set r | r in e.refs[..i])
  }

  lemma LinkingStep(g: Graph, e: Event, i: nat, children: map<EventID, set<EventID>>, tips: set<EventID>)
    requires Linking(g, e, i, children, tips) && i < |e.refs|
    requires e.id !in g.events && e.refs[i] in g.events
    ensures var ref := e.refs[i];
      Linking(g, e, i + 1, children[ref := children[ref] + {e.id}], tips - {ref})
  {
    assert e.refs[..i + 1] == e.refs[..i] + [e.refs[i]];
  }

  lemma LinkingDone(g: Graph, e: Event, children: map<EventID, set<EventID>>, tips: set<EventID>)
    requires Causal(g.events) && e.id !in g.events && (forall r :: r in e.refs ==> r in g.events)
    requires Linking(g, e, |e.refs|, children, tips)
    ensures Indexed(Graph(g.events[e.id := e], children, tips + {e.id}))
  {
    assert e.refs[..|e.refs|] == e.refs;
    var events' := g.events[e.id := e];
    assert ChildrenOf(events', e.id) == {} by {
      assert forall c :: c in g.events ==> e.id !in g.events[c].refs;
      assert e.id !in e.refs;
    }
    forall p | p in g.events
      ensures ChildrenOf(events', p) == ChildrenOf(g.events, p) + (if p in e.refs then {e.id} else {})
    {
    }
    assert tips + {e.id} == Childless(events');
  }

  class DAG {
    const crypto: Crypto
    var events: Events
    var children: map<EventID, set<EventID>>
    var tips: set<EventID>
    /** What the attached store holds. */
    var store: Events

    constructor (crypto: Crypto, store: Events)
      ensures Valid() && events == map[] && this.store == store && this.crypto == crypto
    {
      this.crypto, this.store := crypto, store;
      events, children, tips := map[], map[], {};
      new;
      assert Ranked(Backward(events), map[]);
    }

    function View(): Graph
      reads this
    {
      Graph(events, children, tips)
    }

    ghost predicate Valid()
      reads this
    {
      WellFormed(View())
    }

    /** Everything appended went through the checks and into the store, as in a graph grown by `Add` alone. */
    ghost predicate Durable()
      reads this
    {
      store == events && Signed(crypto, events)
    }

    /** The first check an event fails, in the order they are made. */
    function AddError(e: Event): Option<Error>
      reads this
    {
      if e.id in events then Some(DuplicateEvent)
      else if exists r :: r in e.refs && r !in events then Some(MissingRef)
      else if e.signature == [] then Some(MissingSignature)
      else if !crypto.verify(e) then Some(InvalidSignature)
      else None
    }

    /** Appends an event, or reports the first failed check and changes nothing. What is accepted is exactly what is
    new, keeps the graph causal and is signed. */
    method Add(e: Event) returns (err: Option<Error>)
      requires Valid()
      modifies this
      ensures Valid()
      ensures err == old(AddError(e))
      ensures err == Some(DuplicateEvent) <==> e.id in old(events)
      ensures err == Some(MissingRef) <==> e.id !in old(events) && !Causal(old(events)[e.id := e])
      ensures err.None? <==> e.id !in old(events) && Causal(old(events)[e.id := e]) && IsSigned(crypto, e)
      ensures err.Some? ==> View() == old(View()) && store == old(store)
      ensures err.None? ==> events == old(events)[e.id := e] && store == old(store)[e.id := e]
      ensures old(Durable()) ==> Durable()
    {
      if e.id in events {
        return Some(DuplicateEvent);
      }
      var missing := FindMissing(e.refs);
      CausalIffResolves(events, e);
      if missing {
        return Some(MissingRef);
      }
      if e.signature == [] {
        return Some(MissingSignature);
      }
      if !crypto.verify(e) {
        return Some(InvalidSignature);
      }
      Commit(e);
      store := store[e.id := e];
      return None;
    }

    method FindMissing(refs: seq<EventID>) returns (missing: bool)
      ensures missing <==> exists r :: r in refs && r !in events
    {
      for i := 0 to |refs|
        invariant forall j :: 0 <= j < i ==> refs[j] in events
      {
        if refs[i] !in events {
          return true;
        }
      }
      return false;
    }

    /** Files the event, hooks it under each of its references and moves the frontier. */
    method Commit(e: Event)
      requires Valid() && e.id !in events && forall r :: r in e.refs ==> r in events
      modifies this`events, this`children, this`tips
      ensures Valid()
      ensures events == old(events)[e.id := e]
    {
      ghost var g := View();
      events := events[e.id := e];
      children := children[e.id := {}];
      for i := 0 to |e.refs|
        invariant events == g.events[e.id := e]
        invariant Linking(g, e, i, children, tips)
      {
        var ref := e.refs[i];
        LinkingStep(g, e, i, children, tips);
        children := children[ref := children[ref] + {e.id}];
        tips := tips - {ref};
      }
      LinkingDone(g, e, children, tips);
      CausalGrows(g.events, e);
      tips := tips + {e.id};
    }

    /** What loading makes of one stored event: an error for a mismatched ID or a bad signature (an absent one is let
    through), silence for a duplicate or an event with a missing parent, else the event is appended. */
    function ReplayError(e: Event): Option<Error>
      reads this
    {
      if e.id in events then None
      else if crypto.computeId(e) != Some(e.id) then Some(IdMismatch)
      else if e.signature != [] && !crypto.verify(e) then Some(InvalidSignature)
      else None
    }

    method AddFromStore(e: Event) returns (err: Option<Error>)
      requires Valid()
      modifies this`events, this`children, this`tips
      ensures Valid()
      ensures err == old(ReplayError(e))
      ensures events == if err.None? && e.id !in old(events) && (forall r :: r in e.refs ==> r in old(events))
                        then old(events)[e.id := e] else old(events)
    {
      if e.id in events {
        return None;
      }
      if crypto.computeId(e) != Some(e.id) {
        return Some(IdMismatch);
      }
      if e.signature != [] && !crypto.verify(e) {
        return Some(InvalidSignature);
      }
      var missing := FindMissing(e.refs);
      if missing {
        return None;
      }
      Commit(e);
      return None;
    }
  }
}
