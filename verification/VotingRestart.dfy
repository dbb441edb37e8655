/** Reloading the persisted votes of open events after a restart. */
module VotingRestart {
  import opened Collections
  import opened WeightedSets
  import opened Voting
  import opened VotingSafety
  import opened VotingRuns
  import opened VotingHearing
  import opened VotingAgreement
  import opened VotingRounds

  datatype PersistedVote = PersistedVote(event: EventID, voter: AgentID, verdict: bool)

  /** `list` is what the store returns, in any order: every stored vote once and nothing else. */
  ghost predicate ListsStore(list: seq<PersistedVote>, store: VoteStore) {
    && NoRepeats(list) && FromStore(list, store)
    && (forall e, v :: e in store && v in store[e] ==> PersistedVote(e, v, store[e][v]) in list)
  }

  ghost predicate NoRepeats(list: seq<PersistedVote>) {
    forall i, j :: 0 <= i < j < |list| ==> list[i].event != list[j].event || list[i].voter != list[j].voter
  }

  ghost predicate InStore(p: PersistedVote, store: VoteStore) {
    p.event in store && p.voter in store[p.event] && store[p.event][p.voter] == p.verdict
  }

  ghost predicate FromStore(list: seq<PersistedVote>, store: VoteStore) {
    forall p :: p in list ==> InStore(p, store)
  }

  ghost function Load(p: PersistedVote, admits: (EventID, AgentID) -> bool): Action {
    Register(p.event, p.voter, p.verdict, 0, admits(p.event, p.voter))
  }

  ghost function Loads(list: seq<PersistedVote>, admits: (EventID, AgentID) -> bool): seq<Action> {
    seq(|list|, i requires 0 <= i < |list| => Load(list[i], admits))
  }

  lemma LoadsNext(cfg: Config, start: State, list: seq<PersistedVote>, p: PersistedVote,
                  admits: (EventID, AgentID) -> bool)
    ensures Run(cfg, start, Loads(list + [p], admits))
         == Step(cfg, Run(cfg, start, Loads(list, admits)), Load(p, admits))
  {
    assert Loads(list + [p], admits) == Loads(list, admits) + [Load(p, admits)];
    RunThen(cfg, start, Loads(list, admits), Load(p, admits));
  }

  /** Registers every listed vote, with the value zero; the voters the current set or committee refuses are skipped. */
  method LoadPersistedVotes(vr: VotingRound, list: seq<PersistedVote>)
    modifies vr
    ensures vr.Abs() ==
            Run(vr.cfg, old(vr.Abs()), Loads(list, Admits(old(vr.validatorSet), old(vr.registry), vr.committee)))
  {
    ghost var admits := Admits(vr.validatorSet, vr.registry, vr.committee);
    ghost var start := vr.Abs();
    for i := 0 to |list|
      invariant vr.validatorSet == start.validatorSet && vr.registry == start.registry
      invariant vr.Abs() == Run(vr.cfg, start, Loads(list[..i], admits))
    {
      LoadVote(vr, list[i], admits);
      assert list[..i + 1] == list[..i] + [list[i]];
      LoadsNext(vr.cfg, start, list[..i], list[i], admits);
    }
    assert list[..|list|] == list;
  }

  method LoadVote(vr: VotingRound, p: PersistedVote, ghost admits: (EventID, AgentID) -> bool)
    requires admits == Admits(vr.validatorSet, vr.registry, vr.committee)
    modifies vr
    ensures vr.Abs() == Step(vr.cfg, old(vr.Abs()), Load(p, admits))
    ensures vr.validatorSet == old(vr.validatorSet) && vr.registry == old(vr.registry)
  {
    ghost var before := vr.Abs();
    var err := vr.RegisterVote(p.event, p.voter, p.verdict, 0);
    SourcesStay(vr.cfg, before, Load(p, admits));
  }

  lemma SourcesStay(cfg: Config, st: State, a: Action)
    requires a.Register?
    ensures Step(cfg, st, a).validatorSet == st.validatorSet && Step(cfg, st, a).registry == st.registry
  {
  }

  ghost function Admits(vs: Option<Snapshot>, registry: map<AgentID, Fingerprint>,
                        committee: EventID -> Option<set<AgentID>>): (EventID, AgentID) -> bool
  {
    (e, v) => v in CurrentWeights(vs, registry) && (committee(e).None? || v in committee(e).value)
  }

  // ---- the reloaded state

  /** The admitted votes of `e` among the listed ones. */
  ghost function Loaded(list: seq<PersistedVote>, admits: (EventID, AgentID) -> bool, e: EventID): map<AgentID, bool> {
    if list == [] then map[] else
    var p := list[|list| - 1];
    var rest := Loaded(list[..|list| - 1], admits, e);
    if p.event == e && admits(e, p.voter) then rest[p.voter := p.verdict] else rest
  }

  lemma {:induction false} LoadedMeaning(list: seq<PersistedVote>, admits: (EventID, AgentID) -> bool, e: EventID,
                                         store: VoteStore)
    requires FromStore(list, store)
    ensures forall v :: v in Loaded(list, admits, e) <==>
                          e in store && v in store[e] && admits(e, v) && PersistedVote(e, v, store[e][v]) in list
    ensures forall v :: v in Loaded(list, admits, e) ==> Loaded(list, admits, e)[v] == store[e][v]
  {
    if list != [] {
      var rest, p := list[..|list| - 1], list[|list| - 1];
      assert list == rest + [p];
      LoadedMeaning(rest, admits, e, store);
      assert InStore(p, store);
    }
  }

  ghost predicate Reloading(st: State, s: Snapshot, store: VoteStore, list: seq<PersistedVote>,
                            admits: (EventID, AgentID) -> bool)
  {
    && st.validatorSet == Some(s) && st.orderSeq == 0 && st.persistence == Some(store)
    && (forall e :: e in st.records <==> Loaded(list, admits, e) != map[])
    && (forall e :: e in st.records ==> Reopened(st.records[e], s, Loaded(list, admits, e)))
  }

  /** The store keeps no values, so reloaded votes have none but zero. */
  ghost function Zeros(votes: map<AgentID, bool>): map<AgentID, nat> {
    map v | v in votes :: 0
  }

  /** An open record in its first round, weighed under the snapshot, holding exactly `votes`. */
  ghost predicate Reopened(r: VoteRecord, s: Snapshot, votes: map<AgentID, bool>) {
    && r.bound == Some(s) && r.totalActiveWeight == s.activeWeight
    && r.round == 1 && !r.finalized && r.votes == votes && r.values == Zeros(votes)
    && r.yesWeight == SideWeight(s.weights, votes, true)
    && r.noWeight == SideWeight(s.weights, votes, false)
  }

  /** The stored votes of every event are undecided under the snapshot. */
  ghost predicate StoreUndecided(cfg: Config, s: Snapshot, store: VoteStore) {
    forall e :: e in store ==> Outcomes(cfg, s.weights, s.activeWeight, store[e]) == Undecided
  }

  lemma PutAgain(store: VoteStore, e: EventID, v: AgentID)
    requires e in store && v in store[e]
    ensures PutVote(Some(store), e, v, store[e][v]) == Some(store)
  {
    assert store[e][v := store[e][v]] == store[e];
    assert store[e := store[e]] == store;
  }

  lemma LoadedNext(list: seq<PersistedVote>, p: PersistedVote, admits: (EventID, AgentID) -> bool, e: EventID)
    ensures Loaded(list + [p], admits, e) ==
            if p.event == e && admits(e, p.voter) then Loaded(list, admits, e)[p.voter := p.verdict]
            else Loaded(list, admits, e)
  {
    assert (list + [p])[..|list|] == list;
  }

  lemma UndecidedTally(cfg: Config, st: State, e: EventID)
    requires e in st.records && !st.records[e].finalized && st.records[e].round <= cfg.maxRounds
    requires var r := st.records[e]; Outcomes(cfg, WeightsFor(st, r), r.totalActiveWeight, r.votes) == Undecided
    ensures var r := st.records[e];
      AfterTally(cfg, st, e, false) == st.(records := st.records[e := Tallied(WeightsFor(st, r), r)])
  {
  }

  /** Registering one stored vote whose event stays undecided adds it to the reopened record, and that is all. */
  lemma ReopenWith(cfg: Config, st: State, s: Snapshot, store: VoteStore, e: EventID, v: AgentID,
                   votes: map<AgentID, bool>)
    requires st.validatorSet == Some(s) && st.persistence == Some(store) && cfg.maxRounds >= 1
    requires e in store && v in store[e] && v !in votes
    requires if e in st.records then Reopened(st.records[e], s, votes) else votes == map[]
    requires Outcomes(cfg, s.weights, s.activeWeight, votes[v := store[e][v]]) == Undecided
    ensures var st' := AfterRegister(cfg, st, e, v, store[e][v], 0);
      && e in st'.records && st' == st.(records := st.records[e := st'.records[e]])
      && Reopened(st'.records[e], s, votes[v := store[e][v]])
  {
    var r := WithVote(RecordOf(st, e), v, store[e][v], 0);
    RecordedAgain(st, s, store, e, v, votes);
    TalliedReopens(r, s, votes[v := store[e][v]]);
    UndecidedRegister(cfg, st, s, e, v, store[e][v]);
  }

  /** A vote that is taken and leaves the event undecided is recorded and weighed. */
  lemma UndecidedRegister(cfg: Config, st: State, s: Snapshot, e: EventID, v: AgentID, vote: bool)
    requires RegisterError(cfg, RecordOf(st, e), v).None? && RecordOf(st, e).bound == Some(s)
    requires var r := WithVote(RecordOf(st, e), v, vote, 0);
      && Recorded(st, e, v, vote, 0) == st.(records := st.records[e := r])
      && Outcomes(cfg, s.weights, r.totalActiveWeight, r.votes) == Undecided
    ensures var r := WithVote(RecordOf(st, e), v, vote, 0);
      AfterRegister(cfg, st, e, v, vote, 0) == st.(records := st.records[e := Tallied(s.weights, r)])
  {
    TakenIsTallied(cfg, st, e, v, vote);
    ReplacedTally(cfg, st, s, e, WithVote(RecordOf(st, e), v, vote, 0));
  }

  lemma TakenIsTallied(cfg: Config, st: State, e: EventID, v: AgentID, vote: bool)
    requires RegisterError(cfg, RecordOf(st, e), v).None?
    ensures AfterRegister(cfg, st, e, v, vote, 0) == AfterTally(cfg, Recorded(st, e, v, vote, 0), e, false)
  {
  }

  lemma ReplacedTally(cfg: Config, st: State, s: Snapshot, e: EventID, r: VoteRecord)
    requires r.bound == Some(s) && !r.finalized && r.round <= cfg.maxRounds
    requires Outcomes(cfg, s.weights, r.totalActiveWeight, r.votes) == Undecided
    ensures AfterTally(cfg, st.(records := st.records[e := r]), e, false) ==
            st.(records := st.records[e := Tallied(s.weights, r)])
  {
    UndecidedTally(cfg, st.(records := st.records[e := r]), e);
    assert st.records[e := r][e := Tallied(s.weights, r)] == st.records[e := Tallied(s.weights, r)];
  }

  lemma TalliedReopens(r: VoteRecord, s: Snapshot, votes: map<AgentID, bool>)
    requires r.bound == Some(s) && r.totalActiveWeight == s.activeWeight && r.round == 1 && !r.finalized
    requires r.votes == votes && r.values == Zeros(votes)
    ensures Reopened(Tallied(s.weights, r), s, votes)
  {
  }

  lemma RecordedAgain(st: State, s: Snapshot, store: VoteStore, e: EventID, v: AgentID, votes: map<AgentID, bool>)
    requires st.validatorSet == Some(s) && st.persistence == Some(store)
    requires e in store && v in store[e] && v !in votes
    requires if e in st.records then Reopened(st.records[e], s, votes) else votes == map[]
    ensures var r, mid := RecordOf(st, e), Recorded(st, e, v, store[e][v], 0);
      && r.votes == votes && r.values == Zeros(votes) && r.round == 1 && !r.finalized
      && r.bound == Some(s) && r.totalActiveWeight == s.activeWeight
      && WithVote(r, v, store[e][v], 0).values == Zeros(votes[v := store[e][v]])
      && mid == st.(records := st.records[e := WithVote(r, v, store[e][v], 0)])
  {
    PutAgain(store, e, v);
  }

  lemma StillUndecided(cfg: Config, s: Snapshot, store: VoteStore, list: seq<PersistedVote>, p: PersistedVote,
                       admits: (EventID, AgentID) -> bool)
    requires SnapshotOk(s) && StoreUndecided(cfg, s, store)
    requires FromStore(list, store) && InStore(p, store)
    requires forall q :: q in list ==> q.event != p.event || q.voter != p.voter
    ensures p.voter !in Loaded(list, admits, p.event)
    ensures Outcomes(cfg, s.weights, s.activeWeight, Loaded(list, admits, p.event)[p.voter := p.verdict]) == Undecided
  {
    LoadedMeaning(list, admits, p.event, store);
    PartOfUndecided(cfg, s, Loaded(list, admits, p.event)[p.voter := p.verdict], store[p.event]);
  }

  lemma ReloadingNext(st: State, st': State, s: Snapshot, store: VoteStore, list: seq<PersistedVote>, p: PersistedVote,
                      admits: (EventID, AgentID) -> bool)
    requires Reloading(st, s, store, list, admits) && admits(p.event, p.voter)
    requires p.event in st'.records && st' == st.(records := st.records[p.event := st'.records[p.event]])
    requires Reopened(st'.records[p.event], s, Loaded(list, admits, p.event)[p.voter := p.verdict])
    ensures Reloading(st', s, store, list + [p], admits)
  {
    var votes' := Loaded(list, admits, p.event)[p.voter := p.verdict];
    assert votes'[p.voter] == p.verdict;
    forall x
      ensures x in st'.records <==> Loaded(list + [p], admits, x) != map[]
      ensures x in st'.records ==> Reopened(st'.records[x], s, Loaded(list + [p], admits, x))
    {
      LoadedNext(list, p, admits, x);
    }
  }

  lemma LoadOne(cfg: Config, st: State, s: Snapshot, store: VoteStore, list: seq<PersistedVote>, p: PersistedVote,
                admits: (EventID, AgentID) -> bool)
    requires SnapshotOk(s) && cfg.maxRounds >= 1 && StoreUndecided(cfg, s, store)
    requires FromStore(list, store) && InStore(p, store)
    requires forall q :: q in list ==> q.event != p.event || q.voter != p.voter
    requires Reloading(st, s, store, list, admits) && admits(p.event, p.voter)
    ensures Reloading(Step(cfg, st, Load(p, admits)), s, store, list + [p], admits)
  {
    var e, v := p.event, p.voter;
    StillUndecided(cfg, s, store, list, p, admits);
    ReopenWith(cfg, st, s, store, e, v, Loaded(list, admits, e));
    ReloadingNext(st, Step(cfg, st, Load(p, admits)), s, store, list, p, admits);
  }

  lemma LoadNone(cfg: Config, st: State, s: Snapshot, store: VoteStore, list: seq<PersistedVote>, p: PersistedVote,
                 admits: (EventID, AgentID) -> bool)
    requires Reloading(st, s, store, list, admits) && !admits(p.event, p.voter)
    ensures Step(cfg, st, Load(p, admits)) == st && Reloading(st, s, store, list + [p], admits)
  {
    forall e
      ensures Loaded(list + [p], admits, e) == Loaded(list, admits, e)
    {
      LoadedNext(list, p, admits, e);
    }
  }

  lemma LastIsNew(list: seq<PersistedVote>, p: PersistedVote, store: VoteStore)
    requires NoRepeats(list + [p]) && FromStore(list + [p], store)
    ensures NoRepeats(list) && FromStore(list, store) && InStore(p, store)
    ensures forall q :: q in list ==> q.event != p.event || q.voter != p.voter
  {
    var all := list + [p];
    assert p in all;
    forall q | q in list
      ensures q in all && (q.event != p.event || q.voter != p.voter)
    {
      var i :| 0 <= i < |list| && list[i] == q;
      assert all[i] == q && all[|list|] == p;
    }
    assert forall i :: 0 <= i < |list| ==> all[i] == list[i];
  }

  lemma {:induction false} LoadAll(cfg: Config, start: State, s: Snapshot, store: VoteStore,
                                   list: seq<PersistedVote>, admits: (EventID, AgentID) -> bool)
    requires SnapshotOk(s) && cfg.maxRounds >= 1 && StoreUndecided(cfg, s, store)
    requires start.validatorSet == Some(s) && start.orderSeq == 0 && start.records == map[]
    requires start.persistence == Some(store) && NoRepeats(list) && FromStore(list, store)
    ensures Reloading(Run(cfg, start, Loads(list, admits)), s, store, list, admits)
  {
    if list != [] {
      var rest, p := list[..|list| - 1], list[|list| - 1];
      assert list == rest + [p];
      LastIsNew(rest, p, store);
      LoadAll(cfg, start, s, store, rest, admits);
      LoadsNext(cfg, start, rest, p, admits);
      LoadStep(cfg, Run(cfg, start, Loads(rest, admits)), s, store, rest, p, admits);
    }
  }

  lemma LoadStep(cfg: Config, st: State, s: Snapshot, store: VoteStore, list: seq<PersistedVote>, p: PersistedVote,
                 admits: (EventID, AgentID) -> bool)
    requires SnapshotOk(s) && cfg.maxRounds >= 1 && StoreUndecided(cfg, s, store)
    requires FromStore(list, store) && InStore(p, store)
    requires forall q :: q in list ==> q.event != p.event || q.voter != p.voter
    requires Reloading(st, s, store, list, admits)
    ensures Reloading(Step(cfg, st, Load(p, admits)), s, store, list + [p], admits)
  {
    if admits(p.event, p.voter) {
      LoadOne(cfg, st, s, store, list, p, admits);
    } else {
      LoadNone(cfg, st, s, store, list, p, admits);
    }
  }

  /** The votes of `e` on file that the restarted node still admits. */
  ghost function Kept(votes: map<AgentID, bool>, admits: (EventID, AgentID) -> bool, e: EventID): map<AgentID, bool> {
    map v | v in votes && admits(e, v) :: votes[v]
  }

  lemma LoadedAll(list: seq<PersistedVote>, store: VoteStore, admits: (EventID, AgentID) -> bool, e: EventID)
    requires ListsStore(list, store)
    ensures Loaded(list, admits, e) == if e in store then Kept(store[e], admits, e) else map[]
  {
    LoadedMeaning(list, admits, e, store);
  }

  /** A live node and its next life: the same store, the snapshot of its open events bound before loading. */
  ghost predicate Restarts(cfg: Config, live: State, start: State, s: Snapshot, list: seq<PersistedVote>) {
    && Inv(cfg, live) && live.persistence.Some? && ListsStore(list, live.persistence.value) && SnapshotOk(s)
    && (forall e :: e in live.persistence.value ==> live.records[e].bound == Some(s))
    && start.validatorSet == Some(s) && Started(start) && start.persistence == live.persistence
  }

  /** Restart round trip. A live node reached by any run, the snapshot of its open events set before loading, the store
  read back in any order: every open event comes back open, with the admitted part of its votes and the weights of
  that part, and nothing is finalized on the way. */
  lemma RestartReopens(cfg: Config, live: State, start: State, s: Snapshot, list: seq<PersistedVote>,
                       admits: (EventID, AgentID) -> bool)
    requires Restarts(cfg, live, start, s, list)
    ensures var end := Run(cfg, start, Loads(list, admits));
      && end.orderSeq == 0 && end.persistence == live.persistence
      && (forall e :: e in end.records <==>
            e in live.records && !live.records[e].finalized && Kept(live.records[e].votes, admits, e) != map[])
      && (forall e :: e in end.records ==> Reopened(end.records[e], s, Kept(live.records[e].votes, admits, e)))
  {
    var store := live.persistence.value;
    RestartReloads(cfg, live, start, s, list, admits);
    var end := Run(cfg, start, Loads(list, admits));
    forall e
      ensures e in end.records <==>
              e in live.records && !live.records[e].finalized && Kept(live.records[e].votes, admits, e) != map[]
      ensures e in end.records ==> Reopened(end.records[e], s, Kept(live.records[e].votes, admits, e))
    {
      LoadedAll(list, store, admits, e);
    }
  }

  lemma RestartReloads(cfg: Config, live: State, start: State, s: Snapshot, list: seq<PersistedVote>,
                       admits: (EventID, AgentID) -> bool)
    requires Restarts(cfg, live, start, s, list)
    ensures Reloading(Run(cfg, start, Loads(list, admits)), s, live.persistence.value, list, admits)
  {
    var store := live.persistence.value;
    if list == [] {
      assert Reloading(start, s, store, list, admits);
    } else {
      assert InStore(list[0], store);
      assert Settled(cfg, live.records[list[0].event]);
      OpenIsUndecided(cfg, live, s);
      LoadAll(cfg, start, s, store, list, admits);
    }
  }

  lemma OpenIsUndecided(cfg: Config, live: State, s: Snapshot)
    requires Inv(cfg, live) && live.persistence.Some?
    requires forall e :: e in live.persistence.value ==> live.records[e].bound == Some(s)
    ensures StoreUndecided(cfg, s, live.persistence.value)
  {
    forall e | e in live.persistence.value
      ensures Outcomes(cfg, s.weights, s.activeWeight, live.persistence.value[e]) == Undecided
    {
      assert Settled(cfg, live.records[e]) && Shaped(live.records[e], live.orderSeq);
    }
  }

  lemma {:induction false} SumZero(w: map<AgentID, nat>, a: set<AgentID>)
    requires a <= w.Keys
    ensures Sum(w, a) == 0 <==> forall v :: v in a ==> w[v] == 0
    decreases |a|
  {
    if a != {} {
      var v :| v in a;
      SumRemove(w, a, v);
      SumZero(w, a - {v});
    }
  }

  /** Dropping votes leaves the weight of a side the same exactly when the dropped ones have none. */
  lemma SideKept(s: Snapshot, votes: map<AgentID, bool>, admits: (EventID, AgentID) -> bool, e: EventID, side: bool)
    requires SnapshotOk(s)
    ensures SideWeight(s.weights, Kept(votes, admits, e), side) == SideWeight(s.weights, votes, side) <==>
            forall v :: v in Side(s.weights, votes, side) && s.weights[v] > 0 ==> admits(e, v)
  {
    var all, kept := Side(s.weights, votes, side), Side(s.weights, Kept(votes, admits, e), side);
    TallyExact(s, votes);
    TallyExact(s, Kept(votes, admits, e));
    SumUnion(s.weights, kept, all - kept);
    assert kept + (all - kept) == all;
    SumZero(s.weights, all - kept);
    assert forall v :: v in all - kept <==> v in all && !admits(e, v);
  }

  /** The votes come back exactly when every voter on record is still admitted, the weights exactly when every voter is
  whom the snapshot gives any. */
  lemma RestartExact(live: VoteRecord, back: VoteRecord, cfg: Config, s: Snapshot,
                     admits: (EventID, AgentID) -> bool, e: EventID)
    requires Settled(cfg, live) && live.bound == Some(s) && live.votes != map[] && SnapshotOk(s)
    requires Reopened(back, s, Kept(live.votes, admits, e))
    ensures back.votes == live.votes <==> forall v :: v in live.votes ==> admits(e, v)
    ensures back.yesWeight == live.yesWeight && back.noWeight == live.noWeight <==>
            forall v :: v in live.votes && v in s.weights && s.weights[v] > 0 ==> admits(e, v)
  {
    var kept := Kept(live.votes, admits, e);
    if forall v :: v in live.votes ==> admits(e, v) {
      assert kept == live.votes;
    } else {
      var v :| v in live.votes && !admits(e, v);
      assert v !in kept;
    }
    SideKept(s, live.votes, admits, e, true);
    SideKept(s, live.votes, admits, e, false);
    assert forall v :: v in live.votes && v in s.weights ==> v in Side(s.weights, live.votes, live.votes[v]);
  }

  // ---- life after a restart

  /** Whatever the restarted node does after loading, an event that was open with admitted votes keeps the snapshot and
  those votes, with the value zero. */
  lemma VotesOutlive(cfg: Config, live: State, start: State, s: Snapshot, list: seq<PersistedVote>,
                     admits: (EventID, AgentID) -> bool, more: seq<Action>, e: EventID)
    requires Restarts(cfg, live, start, s, list) && e in live.persistence.value
    requires Kept(live.records[e].votes, admits, e) != map[]
    ensures var end := Run(cfg, start, Loads(list, admits) + more);
      && e in end.records && end.records[e].bound == Some(s)
      && Extends(Kept(live.records[e].votes, admits, e), end.records[e].votes)
      && forall v :: v in Kept(live.records[e].votes, admits, e) ==> ValueOf(end.records[e], v) == 0
  {
    var actions := Loads(list, admits) + more;
    RestartReopens(cfg, live, start, s, list, admits);
    assert actions[..|Loads(list, admits)|] == Loads(list, admits);
    RunEvolves(cfg, start, actions, |Loads(list, admits)|);
  }

  /** Agreement across a restart. If the restarted node, whatever it does after loading, settles an event it had open
  before, and another node settles the event the other way, some voter of positive weight is on record with both votes;
  and the restarted node's record holds all admitted votes of its former life. */
  lemma AgreementAfterRestart(cfg: Config, cfg': Config, live: State, start: State, st': State,
                              list: seq<PersistedVote>, admits: (EventID, AgentID) -> bool, more: seq<Action>,
                              actions': seq<Action>, e: EventID, s: Snapshot)
    returns (v: AgentID)
    requires Restarts(cfg, live, start, s, list) && Started(st') && cfg.threshold == cfg'.threshold
    requires e in live.persistence.value && Kept(live.records[e].votes, admits, e) != map[]
    requires var a, b := Run(cfg, start, Loads(list, admits) + more), Run(cfg', st', actions');
      && e in a.records && a.records[e].finalized
      && e in b.records && b.records[e].bound == Some(s) && b.records[e].finalized
      && a.records[e].finalVerdict != b.records[e].finalVerdict
    ensures var a := Run(cfg, start, Loads(list, admits) + more).records[e].votes;
      var b := Run(cfg', st', actions').records[e].votes;
      && v in a && v in b && a[v] != b[v] && v in s.weights && s.weights[v] > 0
      && Extends(Kept(live.records[e].votes, admits, e), a)
  {
    VotesOutlive(cfg, live, start, s, list, admits, more, e);
    if Run(cfg', st', actions').records[e].finalVerdict {
      v := CrossNodeAgreement(cfg', cfg, st', start, actions', Loads(list, admits) + more, e, s);
    } else {
      v := CrossNodeAgreement(cfg, cfg', start, st', Loads(list, admits) + more, actions', e, s);
    }
  }

  /** A restart adds zeros: if the approvals it brought back hold more than half of the approve weight, the event is
  approved with the value zero. */
  lemma RestartZeroesValue(cfg: Config, live: State, start: State, s: Snapshot, list: seq<PersistedVote>,
                           admits: (EventID, AgentID) -> bool, more: seq<Action>, e: EventID, group: set<AgentID>)
    requires Restarts(cfg, live, start, s, list) && e in live.persistence.value
    requires group != {} && group <= Kept(live.records[e].votes, admits, e).Keys
    requires ApprovedIn(Run(cfg, start, Loads(list, admits) + more), e)
    requires Majority(Run(cfg, start, Loads(list, admits) + more).records[e], group)
    ensures Run(cfg, start, Loads(list, admits) + more).records[e].finalValue == 0
  {
    var v :| v in group;
    assert v in Kept(live.records[e].votes, admits, e);
    VotesOutlive(cfg, live, start, s, list, admits, more, e);
    MajorityBoundsFinalValue(cfg, start, Loads(list, admits) + more, e, group, 0, 0);
  }
}
