/** Reloading persisted votes while no validator set is bound, as the node does when it boots: the records are opened
without a snapshot and weighed against the weight received so far. */
module VotingBoot {
  import opened Collections
  import opened WeightedSets
  import opened WeightedMedian
  import opened Voting
  import opened VotingSafety
  import opened VotingRuns
  import opened VotingHearing
  import opened VotingRestart

  /** Enough voters of positive weight whose yes side reaches the threshold of their own weight. */
  ghost predicate Carries(cfg: Config, w: map<AgentID, nat>, votes: map<AgentID, bool>) {
    && |votes| >= cfg.minParticipants && CountedWeight(w, votes) > 0
    && SideWeight(w, votes, true) as real >= cfg.threshold * CountedWeight(w, votes) as real
  }

  /** Without a known active weight a tally approves exactly then, and never rejects. */
  lemma UnboundOutcome(cfg: Config, w: map<AgentID, nat>, votes: map<AgentID, bool>)
    ensures Outcomes(cfg, w, 0, votes) == if Carries(cfg, w, votes) then Approved else Undecided
  {
  }

  /** Some part of the listing, as far as it goes, carries the event. */
  ghost predicate Carried(cfg: Config, w: map<AgentID, nat>, list: seq<PersistedVote>,
                          admits: (EventID, AgentID) -> bool, e: EventID)
  {
    exists n :: 0 <= n <= |list| && Carries(cfg, w, Loaded(list[..n], admits, e))
  }

  // ---- one event while the listing is loaded

  ghost predicate Unbound(st: State, registry: map<AgentID, Fingerprint>) {
    st.validatorSet.None? && st.registry == registry
  }

  /** A finalized event, or an open one with the votes loaded so far. */
  ghost predicate Half(st: State, e: EventID, carried: bool, votes: map<AgentID, bool>) {
    if carried then
      e in st.records && st.records[e].bound.None? && st.records[e].finalized && st.records[e].finalVerdict
    else if e in st.records then
      && st.records[e].bound.None? && st.records[e].totalActiveWeight == 0 && st.records[e].round == 1
      && !st.records[e].finalized && st.records[e].votes == votes && votes != map[]
    else votes == map[]
  }

  /** The stored votes of the event are there until it is finalized, and then gone. */
  ghost predicate Filed(st: State, e: EventID, carried: bool, votes: map<AgentID, bool>) {
    && st.persistence.Some?
    && if carried then e !in st.persistence.value
       else e in st.persistence.value && st.persistence.value[e] == votes
  }

  /** What is known of an event is the same in both states. */
  ghost predicate SameFor(st: State, st': State, e: EventID) {
    && (e in st'.records <==> e in st.records) && (e in st.records ==> st'.records[e] == st.records[e])
    && st'.validatorSet == st.validatorSet && st'.registry == st.registry
  }

  ghost predicate SameFile(st: State, st': State, e: EventID) {
    && st.persistence.Some? && st'.persistence.Some?
    && (e in st'.persistence.value <==> e in st.persistence.value)
    && (e in st.persistence.value ==> st'.persistence.value[e] == st.persistence.value[e])
  }

  lemma OutcomeElsewhere(st: State, x: EventID, t: VoteRecord, outcome: Outcome, e: EventID)
    requires x != e && st.persistence.Some?
    ensures SameFor(st, AfterOutcome(st, x, t, outcome, false), e)
    ensures SameFile(st, AfterOutcome(st, x, t, outcome, false), e)
  {
  }

  lemma RecordedElsewhere(st: State, x: EventID, v: AgentID, vote: bool, e: EventID)
    requires x != e && st.persistence.Some?
    ensures SameFor(st, Recorded(st, x, v, vote, 0), e) && SameFile(st, Recorded(st, x, v, vote, 0), e)
  {
  }

  lemma TallyElsewhere(cfg: Config, st: State, x: EventID, e: EventID)
    requires x != e && st.persistence.Some? && x in st.records
    ensures SameFor(st, AfterTally(cfg, st, x, false), e) && SameFile(st, AfterTally(cfg, st, x, false), e)
  {
    var r := st.records[x];
    if !r.finalized && r.round <= cfg.maxRounds {
      UnboundTally(cfg, st, x);
      OutcomeElsewhere(st, x, Tallied(WeightsFor(st, r), r),
                       Outcomes(cfg, WeightsFor(st, r), r.totalActiveWeight, r.votes), e);
    }
  }

  /** Votes on another event leave this one alone. */
  lemma Elsewhere(cfg: Config, st: State, x: EventID, v: AgentID, vote: bool, e: EventID)
    requires x != e && st.persistence.Some?
    ensures SameFor(st, AfterRegister(cfg, st, x, v, vote, 0), e)
    ensures SameFile(st, AfterRegister(cfg, st, x, v, vote, 0), e)
  {
    if RegisterError(cfg, RecordOf(st, x), v).None? {
      RecordedElsewhere(st, x, v, vote, e);
      TallyElsewhere(cfg, Recorded(st, x, v, vote, 0), x, e);
    }
  }

  /** Votes on a finalized event change nothing. */
  lemma AfterTheEnd(cfg: Config, st: State, e: EventID, v: AgentID, vote: bool)
    requires e in st.records && st.records[e].finalized
    ensures AfterRegister(cfg, st, e, v, vote, 0) == st
  {
    assert st.records[e := st.records[e]] == st.records;
  }

  lemma UnboundTally(cfg: Config, st: State, e: EventID)
    requires e in st.records && !st.records[e].finalized && st.records[e].round <= cfg.maxRounds
    ensures var r := st.records[e];
      AfterTally(cfg, st, e, false) ==
      AfterOutcome(st, e, Tallied(WeightsFor(st, r), r),
                   Outcomes(cfg, WeightsFor(st, r), r.totalActiveWeight, r.votes), false)
  {
  }

  /** One more stored vote on an open event finalizes it exactly when the votes together carry it. */
  lemma OneMore(cfg: Config, st: State, registry: map<AgentID, Fingerprint>, e: EventID, votes: map<AgentID, bool>,
                v: AgentID, file: map<AgentID, bool>)
    requires Unbound(st, registry) && Half(st, e, false, votes) && Filed(st, e, false, file)
    requires v in file && v !in votes && cfg.maxRounds >= 1
    ensures var st', votes' := AfterRegister(cfg, st, e, v, file[v], 0), votes[v := file[v]];
      var carried := Carries(cfg, CurrentWeights(None, registry), votes');
      Unbound(st', registry) && Half(st', e, carried, votes') && Filed(st', e, carried, file)
  {
    PutAgain(st.persistence.value, e, v);
    var mid := Recorded(st, e, v, file[v], 0);
    var r := mid.records[e];
    assert r.votes == votes[v := file[v]] && r.bound.None? && r.totalActiveWeight == 0 && r.round == 1 && !r.finalized;
    assert v in r.votes;
    UnboundOutcome(cfg, WeightsFor(mid, r), r.votes);
    UnboundTally(cfg, mid, e);
  }

  // ---- the whole listing

  lemma CarriedNext(cfg: Config, w: map<AgentID, nat>, list: seq<PersistedVote>, p: PersistedVote,
                    admits: (EventID, AgentID) -> bool, e: EventID)
    ensures Carried(cfg, w, list + [p], admits, e) <==>
            Carried(cfg, w, list, admits, e) || Carries(cfg, w, Loaded(list + [p], admits, e))
  {
    var all := list + [p];
    assert all[..|all|] == all;
    assert forall n :: 0 <= n <= |list| ==> all[..n] == list[..n];
  }

  /** After loading `list`, the event is finalized if some part of the listing carried it, else open with its votes. */
  ghost predicate Booted(cfg: Config, st: State, registry: map<AgentID, Fingerprint>, list: seq<PersistedVote>,
                         admits: (EventID, AgentID) -> bool, e: EventID, file: map<AgentID, bool>)
  {
    var carried := Carried(cfg, CurrentWeights(None, registry), list, admits, e);
    Unbound(st, registry) && Half(st, e, carried, Loaded(list, admits, e)) && Filed(st, e, carried, file)
  }

  lemma NotYetLoaded(list: seq<PersistedVote>, p: PersistedVote, admits: (EventID, AgentID) -> bool, store: VoteStore)
    requires FromStore(list, store) && forall q :: q in list ==> q.event != p.event || q.voter != p.voter
    ensures p.voter !in Loaded(list, admits, p.event)
  {
    LoadedMeaning(list, admits, p.event, store);
  }

  lemma BootOne(cfg: Config, st: State, registry: map<AgentID, Fingerprint>, store: VoteStore,
                list: seq<PersistedVote>, p: PersistedVote, admits: (EventID, AgentID) -> bool, e: EventID)
    requires e in store && cfg.maxRounds >= 1 && FromStore(list, store) && InStore(p, store)
    requires forall q :: q in list ==> q.event != p.event || q.voter != p.voter
    requires Booted(cfg, st, registry, list, admits, e, store[e])
    ensures Booted(cfg, Step(cfg, st, Load(p, admits)), registry, list + [p], admits, e, store[e])
  {
    var w := CurrentWeights(None, registry);
    LoadedNext(list, p, admits, e);
    CarriedNext(cfg, w, list, p, admits, e);
    assert list[..|list|] == list;
    if admits(p.event, p.voter) {
      if p.event != e {
        Elsewhere(cfg, st, p.event, p.voter, p.verdict, e);
      } else if Carried(cfg, w, list, admits, e) {
        AfterTheEnd(cfg, st, e, p.voter, p.verdict);
      } else {
        NotYetLoaded(list, p, admits, store);
        OneMore(cfg, st, registry, e, Loaded(list, admits, e), p.voter, store[e]);
      }
    }
  }

  lemma {:induction false} BootAll(cfg: Config, start: State, store: VoteStore, list: seq<PersistedVote>,
                                   admits: (EventID, AgentID) -> bool, e: EventID)
    requires Started(start) && start.validatorSet.None? && start.persistence == Some(store)
    requires e in store && cfg.maxRounds >= 1 && NoRepeats(list) && FromStore(list, store)
    ensures Booted(cfg, Run(cfg, start, Loads(list, admits)), start.registry, list, admits, e, store[e])
  {
    if list == [] {
      NothingCarries(cfg, CurrentWeights(None, start.registry));
    } else {
      var rest, p := list[..|list| - 1], list[|list| - 1];
      assert list == rest + [p];
      LastIsNew(rest, p, store);
      BootAll(cfg, start, store, rest, admits, e);
      LoadsNext(cfg, start, rest, p, admits);
      BootOne(cfg, Run(cfg, start, Loads(rest, admits)), start.registry, store, rest, p, admits, e);
    }
  }

  lemma NothingCarries(cfg: Config, w: map<AgentID, nat>)
    ensures !Carries(cfg, w, map[])
  {
    var none: map<AgentID, bool> := map[];
    assert none.Keys * w.Keys == {};
  }

  // ---- exactly which events survive

  /** Part of the admitted votes carries the event. */
  ghost predicate Tips(cfg: Config, w: map<AgentID, nat>, votes: map<AgentID, bool>, part: map<AgentID, bool>) {
    Extends(part, votes) && Carries(cfg, w, part)
  }

  ghost predicate StaysOpen(cfg: Config, start: State, list: seq<PersistedVote>, admits: (EventID, AgentID) -> bool,
                            e: EventID)
  {
    OpenFor(Run(cfg, start, Loads(list, admits)), e)
  }

  ghost function AllVotes(store: VoteStore): set<PersistedVote> {
    set e, v | e in store && v in store[e] :: PersistedVote(e, v, store[e][v])
  }

  lemma ListingOf(list: seq<PersistedVote>, store: VoteStore)
    requires Lists(list, AllVotes(store))
    ensures ListsStore(list, store)
  {
    assert forall p :: p in list <==> p in AllVotes(store);
    forall i, j | 0 <= i < j < |list|
      ensures list[i].event != list[j].event || list[i].voter != list[j].voter
    {
      assert list[i] in list && list[j] in list;
    }
  }

  /** Any part of the admitted votes can come first in a listing of the store. */
  lemma PartFirst(store: VoteStore, admits: (EventID, AgentID) -> bool, e: EventID, part: map<AgentID, bool>)
    returns (list: seq<PersistedVote>, n: nat)
    requires e in store && Extends(part, Kept(store[e], admits, e))
    ensures ListsStore(list, store) && n <= |list| && Loaded(list[..n], admits, e) == part
  {
    var first := set v | v in part :: PersistedVote(e, v, part[v]);
    var front := SomeListing(first);
    var rest := SomeListing(AllVotes(store) - first);
    list, n := front + rest, |front|;
    assert first <= AllVotes(store);
    ListsJoin(front, first, rest, AllVotes(store) - first);
    assert first + (AllVotes(store) - first) == AllVotes(store);
    ListingOf(list, store);
    assert list[..n] == front;
    PartLoaded(store, admits, e, part, front);
  }

  lemma ListsJoin(a: seq<PersistedVote>, x: set<PersistedVote>, b: seq<PersistedVote>, y: set<PersistedVote>)
    requires Lists(a, x) && Lists(b, y) && x !! y
    ensures Lists(a + b, x + y)
  {
    assert forall p :: p in a <==> p in x;
    assert forall p :: p in b <==> p in y;
    forall i, j | 0 <= i < j < |a + b|
      ensures (a + b)[i] != (a + b)[j]
    {
      if i < |a| <= j {
        assert a[i] in a && b[j - |a|] in b;
      }
    }
  }

  lemma PartLoaded(store: VoteStore, admits: (EventID, AgentID) -> bool, e: EventID, part: map<AgentID, bool>,
                   front: seq<PersistedVote>)
    requires e in store && Extends(part, Kept(store[e], admits, e))
    requires Lists(front, set v | v in part :: PersistedVote(e, v, part[v]))
    ensures Loaded(front, admits, e) == part
  {
    var first := set v | v in part :: PersistedVote(e, v, part[v]);
    assert forall p :: p in front <==> p in first;
    assert forall v :: v in part ==> PersistedVote(e, v, part[v]) in first;
    LoadedMeaning(front, admits, e, store);
  }

  /** However the votes are listed, an event comes back open from a load without a bound set if and only if the
  configuration allows no round at all or no part of its admitted votes carries it. */
  lemma UnboundLoadOpen(cfg: Config, start: State, store: VoteStore, admits: (EventID, AgentID) -> bool, e: EventID)
    requires Started(start) && start.validatorSet.None? && start.persistence == Some(store) && e in store
    ensures (forall list :: ListsStore(list, store) ==> StaysOpen(cfg, start, list, admits, e)) <==>
            cfg.maxRounds == 0
            || !exists part :: Tips(cfg, CurrentWeights(None, start.registry), Kept(store[e], admits, e), part)
  {
    var w, votes := CurrentWeights(None, start.registry), Kept(store[e], admits, e);
    if cfg.maxRounds == 0 {
      forall list | ListsStore(list, store)
        ensures StaysOpen(cfg, start, list, admits, e)
      {
        NoRounds(cfg, start, Loads(list, admits), e);
      }
    } else if part :| Tips(cfg, w, votes, part) {
      var list, n := PartFirst(store, admits, e, part);
      BootAll(cfg, start, store, list, admits, e);
      assert Carried(cfg, w, list, admits, e);
      assert !StaysOpen(cfg, start, list, admits, e);
    } else {
      forall list | ListsStore(list, store)
        ensures StaysOpen(cfg, start, list, admits, e)
      {
        NoPartCarries(cfg, w, store, list, admits, e);
        BootAll(cfg, start, store, list, admits, e);
      }
    }
  }

  lemma NoRounds(cfg: Config, start: State, actions: seq<Action>, e: EventID)
    requires Started(start) && cfg.maxRounds == 0
    ensures OpenFor(Run(cfg, start, actions), e)
  {
    RunSound(cfg, start, actions);
    var end := Run(cfg, start, actions);
    if e in end.records {
      assert Settled(cfg, end.records[e]);
    }
  }

  lemma NoPartCarries(cfg: Config, w: map<AgentID, nat>, store: VoteStore, list: seq<PersistedVote>,
                      admits: (EventID, AgentID) -> bool, e: EventID)
    requires e in store && FromStore(list, store)
    requires !exists part :: Tips(cfg, w, Kept(store[e], admits, e), part)
    ensures !Carried(cfg, w, list, admits, e)
  {
    forall n | 0 <= n <= |list|
      ensures !Carries(cfg, w, Loaded(list[..n], admits, e))
    {
      LoadedMeaning(list[..n], admits, e, store);
      assert !Tips(cfg, w, Kept(store[e], admits, e), Loaded(list[..n], admits, e));
    }
  }

  // ---- a boot that decides what the snapshot would not

  const PAIR: Snapshot := Snapshot(1, map["a" := 300, "b" := 700], 1000)
  const PAIR_REGISTRY: map<AgentID, Fingerprint> := map["a" := Fingerprint(10000, 300), "b" := Fingerprint(10000, 700)]
  const SINGLE: Config := Config(0.667, 10, 1)

  function PairBallots(): seq<Ballot> {
    [Ballot("a", true, 0), Ballot("b", false, 0)]
  }

  lemma PairSums()
    ensures SnapshotOk(PAIR)
    ensures SideWeight(PAIR.weights, map["a" := true], true) == 300
    ensures SideWeight(PAIR.weights, map["a" := true], false) == 0
    ensures SideWeight(PAIR.weights, map["a" := true, "b" := false], true) == 300
    ensures SideWeight(PAIR.weights, map["a" := true, "b" := false], false) == 700
  {
    var w := PAIR.weights;
    assert w.Keys == {"a", "b"};
    SumRemove(w, {"a", "b"}, "b");
    SumRemove(w, {"a"}, "a");
    SumRemove(w, {"b"}, "b");
    assert {"a", "b"} - {"b"} == {"a"} && {"a"} - {"a"} == {} && {"b"} - {"b"} == {};
    assert Side(w, map["a" := true], true) == {"a"} && Side(w, map["a" := true], false) == {};
    assert Side(w, map["a" := true, "b" := false], true) == {"a"};
    assert Side(w, map["a" := true, "b" := false], false) == {"b"};
  }

  lemma PairOutcomes()
    ensures Outcomes(SINGLE, PAIR.weights, PAIR.activeWeight, map["a" := true]) == Undecided
    ensures Outcomes(SINGLE, PAIR.weights, PAIR.activeWeight, map["a" := true, "b" := false]) == Rejected
  {
    PairSums();
    PairNumbers(CountedWeight(PAIR.weights, map["a" := true]),
                CountedWeight(PAIR.weights, map["a" := true, "b" := false]));
    assert |map["a" := true]| == 1 && |map["a" := true, "b" := false]| == 2;
  }

  lemma PairNumbers(total: nat, total': nat)
    ensures Decide(SINGLE, 1000, 300, 0, total, 1) == Undecided
    ensures Decide(SINGLE, 1000, 300, 700, total', 2) == Rejected
  {
  }

  lemma PairBallotVotes()
    ensures PairBallots()[..1] == [Ballot("a", true, 0)] && VotesOf([Ballot("a", true, 0)]) == map["a" := true]
    ensures VotesOf(PairBallots()) == map["a" := true, "b" := false]
  {
    var bs := PairBallots();
    Prefixes(bs);
    assert bs[..1] == [Ballot("a", true, 0)];
    assert [Ballot("a", true, 0)][..0] == [];
    assert VotesOf(bs[..1]) == map["a" := true];
  }

  /** One of two voters has been heard, and the vote is on file. */
  lemma PairHeard(e: EventID)
    ensures var live := Run(SINGLE, Initial(Some(map[])), Hears(e, PAIR, [Ballot("a", true, 0)]));
      && e in live.records && !live.records[e].finalized && live.records[e].bound == Some(PAIR)
      && live.persistence == Some(map[e := map["a" := true]])
  {
    PairBallotVotes();
    PairOutcomes();
    HeardAll(SINGLE, Initial(Some(map[])), e, PAIR, [Ballot("a", true, 0)]);
    FirstOnFile(SINGLE, e, PAIR, Ballot("a", true, 0));
  }

  /** The first ballot on an event that stays open is what the store then holds. */
  lemma FirstOnFile(cfg: Config, e: EventID, s: Snapshot, b: Ballot)
    requires cfg.maxRounds >= 1
    ensures var live := Run(cfg, Initial(Some(map[])), Hears(e, s, [b]));
      e in live.records && !live.records[e].finalized ==> live.persistence == Some(map[e := map[b.voter := b.vote]])
  {
    var start := Initial(Some(map[]));
    var h := [SetValidatorSet(Some(s))];
    RunThen(cfg, start, [], h[0]);
    RunThen(cfg, start, h, Cast(e, b));
    assert [b][..0] == [] && Hears(e, s, [b]) == h + [Cast(e, b)] && [] + h == h;
    var st := Run(cfg, start, h);
    assert st == start.(validatorSet := Some(s));
    var mid := Recorded(st, e, b.voter, b.vote, b.value);
    assert mid.persistence == Some(map[e := map[b.voter := b.vote]]);
    TallyFile(cfg, mid, e);
  }

  lemma TallyFile(cfg: Config, st: State, e: EventID)
    requires e in st.records && st.persistence.Some? && !st.records[e].finalized
    ensures var st' := AfterTally(cfg, st, e, false);
      && st'.persistence.Some? && e in st'.records
      && st'.persistence.value == if st'.records[e].finalized then st.persistence.value - {e} else st.persistence.value
  {
  }

  lemma PairRejected(e: EventID)
    ensures var other := Run(SINGLE, Initial(None), Hears(e, PAIR, PairBallots()));
      && e in other.records && other.records[e].bound == Some(PAIR)
      && other.records[e].finalized && !other.records[e].finalVerdict
      && other.records[e].votes == map["a" := true, "b" := false]
  {
    PairBallotVotes();
    PairOutcomes();
    HeardAll(SINGLE, Initial(None), e, PAIR, PairBallots());
  }

  /** The single stored vote carries the event by itself. */
  lemma PairCarries()
    ensures Carries(SINGLE, CurrentWeights(None, PAIR_REGISTRY), map["a" := true])
  {
    var w := CurrentWeights(None, PAIR_REGISTRY);
    assert w["a"] == 300;
    var votes := map["a" := true];
    SumRemove(w, {"a"}, "a");
    assert {"a"} - {"a"} == {};
    assert Side(w, votes, true) == {"a"} && votes.Keys * w.Keys == {"a"};
    assert |votes| == 1;
  }

  /** The program's own boot order. A node that runs under the snapshot has heard one of two voters, so the event is
  open and the vote on file. It restarts, and loads the file while no set is bound: the event is finalized approved and
  the file is empty. A node that hears the same vote and the other voter's under the snapshot rejects the event. */
  lemma UnboundLoadSplitsNodes(e: EventID, admits: (EventID, AgentID) -> bool)
    requires admits(e, "a")
    ensures var live := Run(SINGLE, Initial(Some(map[])), Hears(e, PAIR, [Ballot("a", true, 0)]));
      var start := State(None, PAIR_REGISTRY, map[], 0, live.persistence);
      var booted := Run(SINGLE, start, Loads([PersistedVote(e, "a", true)], admits));
      var other := Run(SINGLE, Initial(None), Hears(e, PAIR, PairBallots()));
      && live.persistence.Some? && ListsStore([PersistedVote(e, "a", true)], live.persistence.value)
      && e in live.records && !live.records[e].finalized && live.records[e].bound == Some(PAIR)
      && e in booted.records && booted.records[e].finalized && booted.records[e].finalVerdict
      && booted.persistence.Some? && e !in booted.persistence.value
      && e in other.records && other.records[e].finalized && !other.records[e].finalVerdict
      && other.records[e].votes == map["a" := true, "b" := false]
  {
    PairHeard(e);
    PairRejected(e);
    var store: VoteStore := map[e := map["a" := true]];
    var start := State(None, PAIR_REGISTRY, map[], 0, Some(store));
    var list := [PersistedVote(e, "a", true)];
    assert ListsStore(list, store);
    BootAll(SINGLE, start, store, list, admits, e);
    PairCarries();
    assert list[..1] == list && list[..0] == [];
    assert Loaded(list, admits, e) == map["a" := true];
    assert Carried(SINGLE, CurrentWeights(None, PAIR_REGISTRY), list, admits, e);
  }
}
