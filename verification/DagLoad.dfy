/** Loading a graph from a store: the sort over the listing, then replay. */
module DagLoad {
  import opened Collections
  import opened Walks
  import opened Dag
  import opened DagQueries
  import opened DagSort
  import opened DagReplay

  /** The ID is the hash of the content, and a signature, if there is one, is valid. */
  predicate Intact(crypto: Crypto, e: Event) {
    crypto.computeId(e) == Some(e.id) && (e.signature == [] || crypto.verify(e))
  }

  /** The whole ancestry of the event is listed, and no cycle is in it. */
  ghost predicate Sound(byID: Events, id: EventID) {
    && id in byID && !CycleAhead(Backward(byID), id)
    && forall x :: Reaches(Backward(byID), id, x) ==> x in byID
  }

  ghost function Salvaged(byID: Events): Events {
    map id | id in byID && Sound(byID, id) :: byID[id]
  }

  /** An event without a cycle ahead is sound exactly when its parents are. */
  lemma SoundByParents(byID: Events, id: EventID)
    requires id in byID && !CycleAhead(Backward(byID), id)
    ensures Sound(byID, id) <==> forall r :: r in byID[id].refs ==> Sound(byID, r)
  {
    var g := Backward(byID);
    if Sound(byID, id) {
      forall r | r in byID[id].refs
        ensures Sound(byID, r)
      {
        SoundParent(byID, id, r);
      }
    }
    if forall r :: r in byID[id].refs ==> Sound(byID, r) {
      forall x | Reaches(g, id, x)
        ensures x in byID
      {
        var r := ReachesFirst(g, id, x);
      }
    }
  }

  lemma SoundParent(byID: Events, id: EventID, r: EventID)
    requires Sound(byID, id) && r in byID[id].refs
    ensures Sound(byID, r)
  {
    var g := Backward(byID);
    StepReaches(g, id, r);
    BehindShrinks(g, id, r);
    forall x | Reaches(g, r, x)
      ensures x in byID
    {
      StepThenReaches(g, id, r, x);
    }
  }

  /** The sound events of `sorted[..n]`, filed by ID. */
  ghost predicate ReplayedTo(byID: Events, sorted: seq<Event>, n: nat, events: Events) {
    && n <= |sorted|
    && (forall id :: id in events ==> id in byID && events[id] == byID[id] && Sound(byID, id))
    && (forall k :: 0 <= k < n && Sound(byID, sorted[k].id) ==> sorted[k].id in events)
    && (forall k :: n <= k < |sorted| ==> sorted[k].id !in events)
  }

  ghost predicate Replayable(byID: Events, sorted: seq<Event>) {
    && Listed(byID, sorted) && DistinctIds(sorted) && ParentsBefore(byID, sorted)
    && forall k :: 0 <= k < |sorted| ==> !CycleAhead(Backward(byID), sorted[k].id)
  }

  /** An event finds its parents replayed exactly when it is sound. */
  lemma ParentsReplayed(byID: Events, sorted: seq<Event>, n: nat, events: Events)
    requires Replayable(byID, sorted) && n < |sorted| && ReplayedTo(byID, sorted, n, events)
    ensures (forall r :: r in sorted[n].refs ==> r in events) <==> Sound(byID, sorted[n].id)
  {
    SoundByParents(byID, sorted[n].id);
    forall r | r in sorted[n].refs
      ensures r in events <==> Sound(byID, r)
    {
      if Sound(byID, r) {
        var j :| 0 <= j < n && sorted[j].id == r;
      }
    }
  }

  lemma ReplayStep(byID: Events, sorted: seq<Event>, n: nat, events: Events)
    requires Replayable(byID, sorted) && n < |sorted| && ReplayedTo(byID, sorted, n, events)
    ensures sorted[n].id !in events
    ensures (forall r :: r in sorted[n].refs ==> r in events) <==> Sound(byID, sorted[n].id)
    ensures var e := sorted[n];
      ReplayedTo(byID, sorted, n + 1, if Sound(byID, e.id) then events[e.id := e] else events)
  {
    ParentsReplayed(byID, sorted, n, events);
  }

  ghost predicate AllIntact(crypto: Crypto, sorted: seq<Event>, n: nat) {
    n <= |sorted| && forall k :: 0 <= k < n ==> Intact(crypto, sorted[k])
  }

  /** What is replayed is listed and intact. */
  ghost predicate Vouched(crypto: Crypto, byID: Events, events: Events) {
    forall id :: id in events ==> id in byID && events[id] == byID[id] && Intact(crypto, events[id])
  }

  /** What holds of the graph after the first `n` events; exactly what it holds is said for `good` listings only. */
  ghost predicate ReplayKept(crypto: Crypto, byID: Events, sorted: seq<Event>, n: nat, events: Events, good: bool) {
    && Vouched(crypto, byID, events)
    && (good ==> ReplayedTo(byID, sorted, n, events) && AllIntact(crypto, sorted, n))
  }

  lemma ReplayKeeps(crypto: Crypto, byID: Events, sorted: seq<Event>, n: nat, events: Events, good: bool)
    requires Listed(byID, sorted) && (good ==> Replayable(byID, sorted)) && n < |sorted|
    requires ReplayKept(crypto, byID, sorted, n, events, good)
    requires sorted[n].id in events || Intact(crypto, sorted[n])
    ensures var e := sorted[n];
      var added := e.id !in events && forall r :: r in e.refs ==> r in events;
      ReplayKept(crypto, byID, sorted, n + 1, if added then events[e.id := e] else events, good)
  {
    if good {
      ReplayStep(byID, sorted, n, events);
    }
  }

  /** Replays events in order into an empty graph, stopping at the first damaged one. */
  method ReplaySorted(d: DAG, sorted: seq<Event>, ghost byID: Events, ghost good: bool) returns (err: Option<Error>)
    requires d.Valid() && d.events == map[] && Listed(byID, sorted) && (good ==> Replayable(byID, sorted))
    modifies d`events, d`children, d`tips
    ensures d.Valid() && Vouched(d.crypto, byID, d.events)
    ensures good ==> (err.None? <==> AllIntact(d.crypto, sorted, |sorted|))
    ensures good && err.None? ==> ReplayedTo(byID, sorted, |sorted|, d.events)
  {
    for i := 0 to |sorted|
      invariant d.Valid() && ReplayKept(d.crypto, byID, sorted, i, d.events, good)
    {
      ghost var before := d.events;
      err := d.AddFromStore(sorted[i]);
      if err.Some? {
        assert !Intact(d.crypto, sorted[i]);
        return;
      }
      ReplayKeeps(d.crypto, byID, sorted, i, before, good);
    }
    return None;
  }

  lemma ReplayDone(listing: seq<Event>, sorted: seq<Event>, skipped: seq<Event>, events: Events)
    requires DistinctIds(listing) && SortedFrom(listing, sorted, skipped)
    requires ReplayedTo(ById(listing), sorted, |sorted|, events)
    ensures events == Salvaged(ById(listing))
  {
    var byID := ById(listing);
    ByIdMeaning(listing);
    forall id | Sound(byID, id)
      ensures id in events
    {
      SkippedIffLooped(listing, sorted, skipped, byID[id]);
      var k :| 0 <= k < |sorted| && sorted[k] == byID[id];
    }
  }

  /** Every event that no cycle keeps from being replayed is intact. */
  ghost predicate Undamaged(crypto: Crypto, byID: Events) {
    forall id :: id in byID && !CycleAhead(Backward(byID), id) ==> Intact(crypto, byID[id])
  }

  lemma IntactIffUndamaged(crypto: Crypto, listing: seq<Event>, sorted: seq<Event>, skipped: seq<Event>)
    requires DistinctIds(listing) && SortedFrom(listing, sorted, skipped)
    ensures AllIntact(crypto, sorted, |sorted|) <==> Undamaged(crypto, ById(listing))
  {
    var byID := ById(listing);
    ByIdMeaning(listing);
    SortedAreListed(listing, sorted, skipped);
    forall id | id in byID && !CycleAhead(Backward(byID), id)
      ensures byID[id] in sorted
    {
      SkippedIffLooped(listing, sorted, skipped, byID[id]);
    }
    forall k | 0 <= k < |sorted|
      ensures !CycleAhead(Backward(byID), sorted[k].id)
    {
      EmittedLoopFree(byID, sorted, k);
    }
    if AllIntact(crypto, sorted, |sorted|) {
      assert forall e :: e in sorted ==> Intact(crypto, e);
    }
  }

  lemma SortedReplayable(listing: seq<Event>, sorted: seq<Event>, skipped: seq<Event>)
    requires DistinctIds(listing) && SortedFrom(listing, sorted, skipped)
    ensures Replayable(ById(listing), sorted)
  {
    SortedAreListed(listing, sorted, skipped);
    forall k | 0 <= k < |sorted|
      ensures !CycleAhead(Backward(ById(listing)), sorted[k].id)
    {
      EmittedLoopFree(ById(listing), sorted, k);
    }
  }

  /** Replays any store listing into a new graph, which is well-formed and holds listed intact events only. Without a
  repeated ID it succeeds exactly when every event without a cycle ahead is intact, and then holds exactly the events
  whose whole ancestry is listed and free of cycles. */
  method LoadFromStore(crypto: Crypto, listing: seq<Event>) returns (err: Option<Error>, d: DAG)
    ensures fresh(d) && d.Valid() && d.crypto == crypto && d.store == ById(listing)
    ensures Vouched(crypto, ById(listing), d.events)
    ensures DistinctIds(listing) ==> (err.None? <==> Undamaged(crypto, ById(listing)))
    ensures DistinctIds(listing) && err.None? ==> d.events == Salvaged(ById(listing))
  {
    ghost var good := DistinctIds(listing);
    d := new DAG(crypto, ById(listing));
    var sorted, skipped := TopoSort(listing);
    if good {
      SortedReplayable(listing, sorted, skipped);
      IntactIffUndamaged(crypto, listing, sorted, skipped);
    }
    err := ReplaySorted(d, sorted, ById(listing), good);
    if good && err.None? {
      ReplayDone(listing, sorted, skipped, d.events);
    }
  }

  // ---- what a run of `Add` leaves in the store

  ghost predicate IdsMatch(crypto: Crypto, events: Events) {
    forall id :: id in events ==> crypto.computeId(events[id]) == Some(id)
  }

  lemma CausalIsSound(events: Events, id: EventID)
    requires Causal(events) && id in events
    ensures Sound(events, id)
  {
    var g := Backward(events);
    var rank :| Ranked(g, rank);
    forall x
      ensures !Reaches(g, x, x)
    {
      if Reaches(g, x, x) {
        RankedReaches(g, rank, x, x);
      }
    }
    forall x | Reaches(g, id, x)
      ensures x in events
    {
      AncestorsPrecede(events, x, id);
    }
  }

  lemma CausalStore(crypto: Crypto, events: Events)
    requires Causal(events) && Signed(crypto, events)
    ensures Salvaged(events) == events
    ensures Undamaged(crypto, events) <==> IdsMatch(crypto, events)
  {
    forall id | id in events
      ensures Sound(events, id)
    {
      CausalIsSound(events, id);
    }
  }

  /** Replay equals live: whatever order the store lists a durable graph in, loading it rebuilds the same events, the
  same forward edges and the same frontier, provided the IDs are content hashes, and fails otherwise. */
  method ReplayEqualsLive(live: DAG, listing: seq<Event>) returns (err: Option<Error>, d: DAG)
    requires live.Valid() && live.Durable() && Enumerates(listing, live.store)
    ensures fresh(d) && live.View() == old(live.View())
    ensures err.None? <==> IdsMatch(live.crypto, live.events)
    ensures err.None? ==> d.Valid() && d.Durable() && d.View() == live.View()
  {
    EnumerationById(listing, live.store);
    CausalStore(live.crypto, live.events);
    err, d := LoadFromStore(live.crypto, listing);
    if err.None? {
      EventsDetermineGraph(d.View(), live.View());
    }
  }
}
