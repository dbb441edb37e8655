/** What every run of a voting round keeps. */
module VotingRuns {
  import opened Collections
  import opened Voting

  ghost function Verdict(r: VoteRecord): Outcome {
    if !r.finalized then Undecided else if r.finalVerdict then Approved else Rejected
  }

  /** A snapshot-bound record says exactly what a fresh tally of its votes would say. Only a configuration without
  rounds leaves a record without votes, and that one is exhausted. */
  ghost predicate Settled(cfg: Config, r: VoteRecord) {
    && (r.votes == map[] ==> !r.finalized && r.round > cfg.maxRounds)
    && (r.votes != map[] ==> cfg.maxRounds >= 1)
    && (r.bound.Some? && r.votes != map[] ==>
          && r == Tallied(r.bound.value.weights, r)
          && Outcomes(cfg, r.bound.value.weights, r.totalActiveWeight, r.votes) == Verdict(r))
  }

  ghost predicate Shaped(r: VoteRecord, orderSeq: nat) {
    && r.round >= 1
    && r.values.Keys == r.votes.Keys
    && r.totalActiveWeight == (if r.bound.Some? then r.bound.value.activeWeight else 0)
    && (r.finalized ==> 1 <= r.finalOrder <= orderSeq && (r.finalVerdict ==> IsFinalValue(r, r.finalValue)))
    && (!r.finalized ==> r.finalOrder == 0 && !r.callbackFired)
  }

  /** `order` lists the finalized events, each at the place its order number names. */
  ghost predicate OrderedBy(st: State, order: seq<EventID>) {
    && |order| == st.orderSeq
    && (forall k :: 0 <= k < |order| ==>
          order[k] in st.records && st.records[order[k]].finalized && st.records[order[k]].finalOrder == k + 1)
    && (forall e :: e in st.records && st.records[e].finalized ==>
          1 <= st.records[e].finalOrder <= |order| && order[st.records[e].finalOrder - 1] == e)
  }

  /** The store holds the votes of the open events and nothing else. */
  ghost predicate Stored(st: State) {
    st.persistence.Some? ==>
      && st.persistence.value.Keys <= st.records.Keys
      && (forall e :: e in st.records ==>
            (e in st.persistence.value <==> !st.records[e].finalized && st.records[e].votes != map[]))
      && (forall e :: e in st.persistence.value ==> st.persistence.value[e] == st.records[e].votes)
  }

  ghost predicate AllShaped(st: State) {
    forall e :: e in st.records ==> Shaped(st.records[e], st.orderSeq)
  }

  ghost predicate Inv(cfg: Config, st: State) {
    && AllShaped(st)
    && (forall e :: e in st.records ==> Settled(cfg, st.records[e]))
    && Stored(st)
    && exists order :: OrderedBy(st, order)
  }

  /** The invariant but for the store. */
  ghost predicate Sound(cfg: Config, st: State) {
    Inv(cfg, st.(persistence := None))
  }

  // ---- how a record may change in one step

  ghost predicate Evolves(cfg: Config, r: VoteRecord, r': VoteRecord) {
    && r'.bound == r.bound && r'.totalActiveWeight == r.totalActiveWeight
    && r.round <= r'.round
    && (forall v :: v in r.votes ==> v in r'.votes && r'.votes[v] == r.votes[v])
    && (forall v :: v in r.values ==> v in r'.values && r'.values[v] == r.values[v])
    && (r.finalized ==> r' == r.(callbackFired := r'.callbackFired) && (r.callbackFired ==> r'.callbackFired))
    && (!r.finalized && r.round > cfg.maxRounds ==> r' == r)
  }

  ghost predicate AllEvolve(cfg: Config, st: State, st': State) {
    && st.orderSeq <= st'.orderSeq
    && forall e :: e in st.records ==> e in st'.records && Evolves(cfg, st.records[e], st'.records[e])
  }

  lemma OneEvolves(cfg: Config, st: State, st': State, e: EventID)
    requires st.orderSeq <= st'.orderSeq && e in st'.records && st'.records == st.records[e := st'.records[e]]
    requires e in st.records ==> Evolves(cfg, st.records[e], st'.records[e])
    ensures AllEvolve(cfg, st, st')
  {
  }

  lemma TallyEvolves(cfg: Config, st: State, e: EventID, advance: bool)
    requires e in st.records
    ensures AllEvolve(cfg, st, AfterTally(cfg, st, e, advance))
  {
    OneEvolves(cfg, st, AfterTally(cfg, st, e, advance), e);
  }

  lemma RegisterEvolves(cfg: Config, st: State, e: EventID, v: AgentID, vote: bool, value: nat)
    requires AllShaped(st)
    ensures AllEvolve(cfg, st, AfterRegister(cfg, st, e, v, vote, value))
  {
    if RegisterError(cfg, RecordOf(st, e), v).Some? {
      OneEvolves(cfg, st, st.(records := st.records[e := RecordOf(st, e)]), e);
    } else {
      var mid := Recorded(st, e, v, vote, value);
      OneEvolves(cfg, st, mid, e);
      TallyEvolves(cfg, mid, e, false);
      EvolvesTransitively(cfg, st, mid, AfterTally(cfg, mid, e, false));
    }
  }

  lemma StepEvolves(cfg: Config, st: State, a: Action)
    requires AllShaped(st)
    ensures AllEvolve(cfg, st, Step(cfg, st, a))
  {
    match a
    case Register(e, v, vote, value, admitted) =>
      if admitted {
        RegisterEvolves(cfg, st, e, v, vote, value);
      }
    case Tally(e) =>
      if e in st.records {
        TallyEvolves(cfg, st, e, true);
      }
    case SetValidatorSet(_) =>
    case UpdateRegistry(_) =>
    case MarkCallback(e) =>
      if CanMark(st, e) {
        OneEvolves(cfg, st, AfterMark(st, e), e);
      }
  }

  lemma EvolvesTransitively(cfg: Config, s0: State, s1: State, s2: State)
    requires AllEvolve(cfg, s0, s1) && AllEvolve(cfg, s1, s2)
    ensures AllEvolve(cfg, s0, s2)
  {
    forall e | e in s0.records
      ensures e in s2.records && Evolves(cfg, s0.records[e], s2.records[e])
    {
      assert Evolves(cfg, s0.records[e], s1.records[e]) && Evolves(cfg, s1.records[e], s2.records[e]);
    }
  }

  // ---- the invariant is kept

  lemma OrderAppends(st: State, st': State, e: EventID, order: seq<EventID>)
    requires OrderedBy(st, order)
    requires e in st.records ==> !st.records[e].finalized
    requires st'.orderSeq == st.orderSeq + 1 && e in st'.records
    requires st'.records == st.records[e := st'.records[e]]
    requires st'.records[e].finalized && st'.records[e].finalOrder == st'.orderSeq
    ensures OrderedBy(st', order + [e])
  {
  }

  lemma OrderStays(st: State, st': State, e: EventID, order: seq<EventID>)
    requires OrderedBy(st, order) && st'.orderSeq == st.orderSeq && e in st'.records
    requires st'.records == st.records[e := st'.records[e]]
    requires if e in st.records && st.records[e].finalized
             then st'.records[e].finalized && st'.records[e].finalOrder == st.records[e].finalOrder
             else !st'.records[e].finalized
    ensures OrderedBy(st', order)
  {
  }

  lemma RecordsStay(cfg: Config, st: State, st': State, e: EventID)
    requires AllShaped(st) && (forall e' :: e' in st.records && e' != e ==> Settled(cfg, st.records[e']))
    requires st.orderSeq <= st'.orderSeq && e in st'.records && st'.records == st.records[e := st'.records[e]]
    requires Shaped(st'.records[e], st'.orderSeq) && Settled(cfg, st'.records[e])
    ensures AllShaped(st') && (forall e' :: e' in st'.records ==> Settled(cfg, st'.records[e']))
  {
  }

  lemma StoreStays(st: State, st': State, e: EventID)
    requires Stored(st) && e in st'.records && st'.records == st.records[e := st'.records[e]]
    requires e in st.records ==> st'.records[e].votes == st.records[e].votes
    requires var r' := st'.records[e];
      if r'.finalized && !(e in st.records && st.records[e].finalized)
      then st'.persistence == DeleteVotes(st.persistence, e)
      else st'.persistence == st.persistence
           && (e in st.records ==> r'.finalized == st.records[e].finalized)
           && (e !in st.records ==> r'.votes == map[])
    ensures Stored(st')
  {
  }

  /** All of the invariant, except that the record of `e` may have taken a vote not yet tallied. */
  ghost predicate Pending(cfg: Config, st: State, e: EventID) {
    && e in st.records
    && !st.records[e].finalized && st.records[e].round <= cfg.maxRounds && st.records[e].votes != map[]
    && AllShaped(st)
    && (forall e' :: e' in st.records && e' != e ==> Settled(cfg, st.records[e']))
    && Stored(st)
    && exists order :: OrderedBy(st, order)
  }

  lemma TallyOpen(cfg: Config, st: State, e: EventID, advance: bool)
    requires Pending(cfg, st, e)
    requires var r := st.records[e]; Outcomes(cfg, WeightsFor(st, r), r.totalActiveWeight, r.votes) == Undecided
    ensures Inv(cfg, AfterTally(cfg, st, e, advance))
  {
    var st' := AfterTally(cfg, st, e, advance);
    var order :| OrderedBy(st, order);
    OrderStays(st, st', e, order);
    StoreStays(st, st', e);
    RecordsStay(cfg, st, st', e);
  }

  lemma TallyCloses(cfg: Config, st: State, e: EventID, advance: bool)
    requires Pending(cfg, st, e)
    requires var r := st.records[e]; Outcomes(cfg, WeightsFor(st, r), r.totalActiveWeight, r.votes) != Undecided
    ensures Inv(cfg, AfterTally(cfg, st, e, advance))
  {
    var st' := AfterTally(cfg, st, e, advance);
    var order :| OrderedBy(st, order);
    OrderAppends(st, st', e, order);
    StoreStays(st, st', e);
    var r := st.records[e];
    var t := Tallied(WeightsFor(st, r), r);
    SameFinalValue(t, st'.records[e], FinalValue(t));
    RecordsStay(cfg, st, st', e);
  }

  lemma SameFinalValue(r: VoteRecord, r': VoteRecord, m: nat)
    requires r'.votes == r.votes && r'.values == r.values && r'.bound == r.bound
    requires IsFinalValue(r, m)
    ensures IsFinalValue(r', m)
  {
    assert Approvers(r') == Approvers(r);
    assert ApproveValues(r') == ApproveValues(r);
    assert ApproveWeights(r') == ApproveWeights(r);
  }

  lemma TallyKeeps(cfg: Config, st: State, e: EventID, advance: bool)
    requires Pending(cfg, st, e)
    ensures Inv(cfg, AfterTally(cfg, st, e, advance))
  {
    var r := st.records[e];
    if Outcomes(cfg, WeightsFor(st, r), r.totalActiveWeight, r.votes) == Undecided {
      TallyOpen(cfg, st, e, advance);
    } else {
      TallyCloses(cfg, st, e, advance);
    }
  }

  lemma OpenedKeeps(cfg: Config, st: State, e: EventID, v: AgentID)
    requires Inv(cfg, st) && RegisterError(cfg, RecordOf(st, e), v).Some?
    ensures Inv(cfg, st.(records := st.records[e := RecordOf(st, e)]))
  {
    var st' := st.(records := st.records[e := RecordOf(st, e)]);
    var order :| OrderedBy(st, order);
    OrderStays(st, st', e, order);
    StoreStays(st, st', e);
    RecordsStay(cfg, st, st', e);
  }

  lemma RecordedStored(cfg: Config, st: State, e: EventID, v: AgentID, vote: bool, value: nat)
    requires Stored(st) && RegisterError(cfg, RecordOf(st, e), v).None?
    ensures Stored(Recorded(st, e, v, vote, value))
  {
  }

  lemma RecordedPends(cfg: Config, st: State, e: EventID, v: AgentID, vote: bool, value: nat)
    requires Inv(cfg, st) && RegisterError(cfg, RecordOf(st, e), v).None?
    ensures Pending(cfg, Recorded(st, e, v, vote, value), e)
  {
    var st' := Recorded(st, e, v, vote, value);
    var order :| OrderedBy(st, order);
    OrderStays(st, st', e, order);
    RecordedStored(cfg, st, e, v, vote, value);
    assert st'.records[e].votes[v] == vote;
  }

  lemma MarkKeeps(cfg: Config, st: State, e: EventID)
    requires Inv(cfg, st) && CanMark(st, e)
    ensures Inv(cfg, AfterMark(st, e))
  {
    var st' := AfterMark(st, e);
    var order :| OrderedBy(st, order);
    OrderStays(st, st', e, order);
    StoreStays(st, st', e);
    SameFinalValueIfApproved(st.records[e], st'.records[e]);
    RecordsStay(cfg, st, st', e);
  }

  lemma SameFinalValueIfApproved(r: VoteRecord, r': VoteRecord)
    requires r' == r.(callbackFired := true)
    requires r.finalVerdict ==> IsFinalValue(r, r.finalValue)
    ensures r.finalVerdict ==> IsFinalValue(r', r.finalValue)
  {
    if r.finalVerdict {
      SameFinalValue(r, r', r.finalValue);
    }
  }

  lemma RegisterKeeps(cfg: Config, st: State, e: EventID, v: AgentID, vote: bool, value: nat)
    requires Inv(cfg, st)
    ensures Inv(cfg, AfterRegister(cfg, st, e, v, vote, value))
  {
    if RegisterError(cfg, RecordOf(st, e), v).Some? {
      OpenedKeeps(cfg, st, e, v);
    } else {
      RecordedPends(cfg, st, e, v, vote, value);
      TallyKeeps(cfg, Recorded(st, e, v, vote, value), e, false);
    }
  }

  lemma AdvanceKeeps(cfg: Config, st: State, e: EventID)
    requires Inv(cfg, st) && e in st.records
    ensures Inv(cfg, AfterTally(cfg, st, e, true))
  {
    if !st.records[e].finalized && st.records[e].round <= cfg.maxRounds {
      TallyKeeps(cfg, st, e, true);
    }
  }

  /** The validator set and the registry do not touch the records. */
  lemma SourcesKeep(cfg: Config, st: State, st': State)
    requires Inv(cfg, st) && st' == st.(validatorSet := st'.validatorSet, registry := st'.registry)
    ensures Inv(cfg, st')
  {
    var order :| OrderedBy(st, order);
    assert OrderedBy(st', order);
  }

  lemma StepKeeps(cfg: Config, st: State, a: Action)
    requires Inv(cfg, st)
    ensures Inv(cfg, Step(cfg, st, a))
  {
    match a
    case Register(e, v, vote, value, admitted) =>
      if admitted {
        RegisterKeeps(cfg, st, e, v, vote, value);
      }
    case Tally(e) =>
      if e in st.records {
        AdvanceKeeps(cfg, st, e);
      }
    case SetValidatorSet(s) => SourcesKeep(cfg, st, Step(cfg, st, a));
    case UpdateRegistry(reg) => SourcesKeep(cfg, st, Step(cfg, st, a));
    case MarkCallback(e) =>
      if CanMark(st, e) {
        MarkKeeps(cfg, st, e);
      }
  }

  ghost predicate Fresh(st: State) {
    st == Initial(None) || st == Initial(Some(map[]))
  }

  /** The invariant holds after every run of a node that starts empty. */
  lemma {:induction false} RunKeeps(cfg: Config, st: State, actions: seq<Action>)
    requires Fresh(st)
    ensures Inv(cfg, Run(cfg, st, actions))
  {
    if actions == [] {
      assert OrderedBy(st, []);
    } else {
      RunKeeps(cfg, st, actions[..|actions| - 1]);
      StepKeeps(cfg, Run(cfg, st, actions[..|actions| - 1]), actions[|actions| - 1]);
    }
  }

  /** A node that has handled no vote yet. Its store may hold votes from before a restart, to be loaded in the run. */
  ghost predicate Started(st: State) {
    st.records == map[] && st.orderSeq == 0
  }

  lemma OutcomeAside(st: State, e: EventID, t: VoteRecord, outcome: Outcome, advance: bool)
    ensures AfterOutcome(st.(persistence := None), e, t, outcome, advance) ==
            AfterOutcome(st, e, t, outcome, advance).(persistence := None)
  {
  }

  lemma TallyAside(cfg: Config, st: State, e: EventID, advance: bool)
    requires e in st.records
    ensures AfterTally(cfg, st.(persistence := None), e, advance)
         == AfterTally(cfg, st, e, advance).(persistence := None)
  {
    var r := st.records[e];
    var w := WeightsFor(st, r);
    assert WeightsFor(st.(persistence := None), r) == w;
    OutcomeAside(st, e, Tallied(w, r), Outcomes(cfg, w, r.totalActiveWeight, r.votes), advance);
  }

  lemma RegisterAside(cfg: Config, st: State, e: EventID, v: AgentID, vote: bool, value: nat)
    ensures AfterRegister(cfg, st.(persistence := None), e, v, vote, value) ==
            AfterRegister(cfg, st, e, v, vote, value).(persistence := None)
  {
    var bare := st.(persistence := None);
    assert RecordOf(bare, e) == RecordOf(st, e);
    if RegisterError(cfg, RecordOf(st, e), v).None? {
      assert Recorded(bare, e, v, vote, value) == Recorded(st, e, v, vote, value).(persistence := None);
      TallyAside(cfg, Recorded(st, e, v, vote, value), e, false);
    }
  }

  /** The store has no influence on the records. */
  lemma StoreAside(cfg: Config, st: State, a: Action)
    ensures Step(cfg, st.(persistence := None), a) == Step(cfg, st, a).(persistence := None)
  {
    match a
    case Register(e, v, vote, value, admitted) => RegisterAside(cfg, st, e, v, vote, value);
    case Tally(e) =>
      if e in st.records {
        TallyAside(cfg, st, e, true);
      }
    case SetValidatorSet(_) =>
    case UpdateRegistry(_) =>
    case MarkCallback(_) =>
  }

  lemma {:induction false} RunSound(cfg: Config, st: State, actions: seq<Action>)
    requires Started(st)
    ensures Sound(cfg, Run(cfg, st, actions))
  {
    if actions == [] {
      assert OrderedBy(st.(persistence := None), []);
    } else {
      var before := Run(cfg, st, actions[..|actions| - 1]);
      RunSound(cfg, st, actions[..|actions| - 1]);
      StoreAside(cfg, before, actions[|actions| - 1]);
      StepKeeps(cfg, before.(persistence := None), actions[|actions| - 1]);
    }
  }

  /** Votes never change, a finalized record keeps its verdict, value and order, an exhausted one never changes at
  all: between any two points of any run. */
  lemma {:induction false} RunEvolves(cfg: Config, st: State, actions: seq<Action>, n: nat)
    requires Started(st) && n <= |actions|
    ensures AllEvolve(cfg, Run(cfg, st, actions[..n]), Run(cfg, st, actions))
    decreases |actions|
  {
    if n == |actions| {
      assert actions[..n] == actions;
    } else {
      var front := actions[..|actions| - 1];
      assert front[..n] == actions[..n];
      RunEvolves(cfg, st, front, n);
      RunSound(cfg, st, front);
      StepEvolves(cfg, Run(cfg, st, front), actions[|actions| - 1]);
      EvolvesTransitively(cfg, Run(cfg, st, actions[..n]), Run(cfg, st, front), Run(cfg, st, actions));
    }
  }

  // ---- the finalization callback

  /** How many callback markings of `e` in the run were told to fire. */
  ghost function Fired(cfg: Config, st: State, actions: seq<Action>, e: EventID): nat {
    if actions == [] then 0 else
    var front := actions[..|actions| - 1];
    Fired(cfg, st, front, e) +
    if actions[|actions| - 1] == MarkCallback(e) && CanMark(Run(cfg, st, front), e) then 1 else 0
  }

  ghost predicate Marked(st: State, e: EventID) {
    e in st.records && st.records[e].callbackFired
  }

  lemma TallyMarksNothing(cfg: Config, st: State, x: EventID, advance: bool, e: EventID)
    requires x in st.records
    ensures Marked(AfterTally(cfg, st, x, advance), e) <==> Marked(st, e)
  {
  }

  lemma MarkedOnlyByMark(cfg: Config, st: State, a: Action, e: EventID)
    ensures Marked(Step(cfg, st, a), e) <==> Marked(st, e) || (a == MarkCallback(e) && CanMark(st, e))
  {
    match a
    case Register(x, v, vote, value, admitted) =>
      if admitted && RegisterError(cfg, RecordOf(st, x), v).None? {
        TallyMarksNothing(cfg, Recorded(st, x, v, vote, value), x, false, e);
      }
    case Tally(x) =>
      if x in st.records {
        TallyMarksNothing(cfg, st, x, true, e);
      }
    case SetValidatorSet(_) =>
    case UpdateRegistry(_) =>
    case MarkCallback(_) =>
  }

  /** At most one marking per event is told to fire, and only after finalization. */
  lemma {:induction false} CallbackFiresOnce(cfg: Config, st: State, actions: seq<Action>, e: EventID)
    requires Started(st)
    ensures var end := Run(cfg, st, actions);
      Fired(cfg, st, actions, e) ==
      if e in end.records && end.records[e].finalized && end.records[e].callbackFired then 1 else 0
  {
    RunSound(cfg, st, actions);
    if actions != [] {
      var front := actions[..|actions| - 1];
      CallbackFiresOnce(cfg, st, front, e);
      RunSound(cfg, st, front);
      MarkedOnlyByMark(cfg, Run(cfg, st, front), actions[|actions| - 1], e);
    }
  }
}
