/** The voting round as an object updated in place, each method tied to its transition. */
module VotingRounds {
  import opened Collections
  import opened Sorting
  import opened WeightedSets
  import opened WeightedMedian
  import opened Voting

  /** The approvers' entries, in whatever order the map yields them. */
  method CollectEntries(r: VoteRecord) returns (entries: seq<Entry>, ghost ids: seq<AgentID>)
    ensures Lists(ids, Approvers(r))
    ensures forall a :: a in ids ==> a in Approvers(r)
    ensures entries == EntriesOf(ids, ApproveValues(r), ApproveWeights(r))
  {
    entries, ids := [], [];
    var todo := r.votes.Keys;
    while todo != {}
      invariant todo <= r.votes.Keys
      invariant Lists(ids, Approvers(r) - todo)
      invariant forall a :: a in ids ==> a in Approvers(r)
      invariant entries == EntriesOf(ids, ApproveValues(r), ApproveWeights(r))
    {
      var v :| v in todo;
      todo := todo - {v};
      if r.votes[v] {
        ListsAppend(ids, Approvers(r) - todo - {v}, v);
        ids := ids + [v];
        entries := entries + [Entry(ValueOf(r, v), MedianWeight(r, v))];
        assert Approvers(r) - todo - {v} + {v} == Approvers(r) - todo;
      } else {
        assert Approvers(r) - todo - {v} == Approvers(r) - todo;
      }
    }
    assert Approvers(r) - {} == Approvers(r);
  }

  /** The first entry whose running weight passes half the total, or the last one. */
  method ScanToHalf(sorted: seq<Entry>) returns (i: nat)
    requires sorted != [] && Total(sorted) > 0
    ensures i < |sorted| && Total(sorted[..i]) <= Total(sorted) / 2 < Total(sorted[..i + 1])
  {
    var totalW := TotalWeight(sorted);
    var threshold := totalW / 2;
    var cumW := sorted[0].weight;
    i := 0;
    while cumW <= threshold && i + 1 < |sorted|
      invariant i < |sorted|
      invariant Total(sorted[..i]) <= threshold
      invariant cumW == Total(sorted[..i + 1])
    {
      i := i + 1;
      cumW := cumW + sorted[i].weight;
      assert sorted[..i + 1][..i] == sorted[..i];
    }
    assert i + 1 == |sorted| ==> sorted[..i + 1] == sorted;
  }

  /** The weighted median of the approve votes, zero when there are none. */
  method ComputeWeightedMedian(r: VoteRecord) returns (m: nat)
    ensures IsFinalValue(r, m)
  {
    var entries, ids := CollectEntries(r);
    if |entries| == 0 {
      assert Approvers(r) == set v | v in ids;
      return 0;
    }
    ghost var value, weight := ApproveValues(r), ApproveWeights(r);
    var sorted := Sort(entries, EntryLe);
    SortedNonEmpty(entries);
    assert Total(sorted) > 0 by {
      ListingTotals(ids, value, weight, 0);
      assert ids[0] in weight;
      SumRemove(weight, weight.Keys, ids[0]);
    }
    var i := ScanToHalf(sorted);
    ScanFindsMedian(ids, value, weight, sorted, i);
    assert ids[0] in Approvers(r);
    return sorted[i].value;
  }

  lemma SortedNonEmpty(es: seq<Entry>)
    requires es != []
    ensures Sort(es, EntryLe) != []
  {
    EntryOrder();
    SortCorrect(es, EntryLe);
    assert es[0] in multiset(es);
  }

  method TotalWeight(es: seq<Entry>) returns (total: nat)
    ensures total == Total(es)
  {
    total := 0;
    for i := 0 to |es|
      invariant total == Total(es[..i])
    {
      total := total + es[i].weight;
      assert es[..i + 1][..i] == es[..i];
    }
    assert es[..|es|] == es;
  }

  /** Sums the weights of the recorded votes, voters outside `w` excluded, in `uint64` arithmetic. */
  method TallyWeights(w: map<AgentID, nat>, votes: map<AgentID, bool>) returns (total: nat, yes: nat, no: nat)
    ensures total == CountedWeight(w, votes)
    ensures yes == SideWeight(w, votes, true)
    ensures no == SideWeight(w, votes, false)
  {
    total, yes, no := 0, 0, 0;
    var todo := votes.Keys;
    ghost var allY, allN, all := Side(w, votes, true), Side(w, votes, false), votes.Keys * w.Keys;
    while todo != {}
      invariant todo <= votes.Keys
      invariant total == Wrap(Sum(w, all - todo))
      invariant yes == Wrap(Sum(w, allY - todo))
      invariant no == Wrap(Sum(w, allN - todo))
    {
      var v :| v in todo;
      if v in w {
        total := CountIn(w, all, todo, v, total);
        if votes[v] {
          yes := CountIn(w, allY, todo, v, yes);
          CountOut(w, allN, todo, v);
        } else {
          no := CountIn(w, allN, todo, v, no);
          CountOut(w, allY, todo, v);
        }
      } else {
        CountOut(w, all, todo, v);
        CountOut(w, allY, todo, v);
        CountOut(w, allN, todo, v);
      }
      todo := todo - {v};
    }
    assert allY - {} == allY && allN - {} == allN && all - {} == all;
  }

  method CountIn(w: map<AgentID, nat>, ghost s: set<AgentID>, ghost todo: set<AgentID>, v: AgentID, sum: nat)
    returns (sum': nat)
    requires s <= w.Keys && v in todo && v in s && sum == Wrap(Sum(w, s - todo))
    ensures sum' == Wrap(Sum(w, s - (todo - {v})))
  {
    ghost var before, after := Sum(w, s - todo), Sum(w, s - (todo - {v}));
    assert after == before + w[v] by {
      SumRemove(w, s - (todo - {v}), v);
      assert s - (todo - {v}) - {v} == s - todo;
    }
    WrapAdd(before, w[v]);
    sum' := Wrap(sum + w[v]);
  }

  lemma CountOut(w: map<AgentID, nat>, s: set<AgentID>, todo: set<AgentID>, v: AgentID)
    requires s <= w.Keys && v in todo && v !in s
    ensures Sum(w, s - (todo - {v})) == Sum(w, s - todo)
  {
    assert s - (todo - {v}) == s - todo;
  }

  lemma RatioAtLeast(x: nat, d: nat, t: real)
    requires d > 0
    ensures x as real / d as real >= t <==> x as real >= t * d as real
  {
    var q := x as real / d as real;
    assert q * d as real == x as real;
    if q >= t {
      assert (q - t) * d as real >= 0.0;
    } else {
      assert (t - q) * d as real > 0.0;
    }
  }

  lemma RatioAbove(x: nat, d: nat, t: real)
    requires d > 0
    ensures x as real / d as real > t <==> x as real > t * d as real
  {
    var q := x as real / d as real;
    assert q * d as real == x as real;
    if q > t {
      assert (q - t) * d as real > 0.0;
    } else {
      assert (t - q) * d as real >= 0.0;
    }
  }

  /** The thresholds as the code compares them, on ratios of weights. */
  method DecideOutcome(cfg: Config, active: nat, yes: nat, no: nat, total: nat, voters: nat) returns (o: Outcome)
    ensures o == Decide(cfg, active, yes, no, total, voters)
  {
    var denominator := active;
    if denominator == 0 {
      denominator := total;
    }
    if voters >= cfg.minParticipants && denominator > 0 {
      RatioAtLeast(yes, denominator, cfg.threshold);
      if yes as real / denominator as real >= cfg.threshold {
        return Approved;
      }
      if active > 0 {
        RatioAbove(no, denominator, 1.0 - cfg.threshold);
        Complement(cfg.threshold, denominator as real);
        if no as real / denominator as real > 1.0 - cfg.threshold {
          return Rejected;
        }
      }
    }
    return Undecided;
  }

  lemma Complement(t: real, d: real)
    ensures (1.0 - t) * d == d - t * d
  {
  }

  class VotingRound {
    const cfg: Config
    const committee: EventID -> Option<set<AgentID>>
    var validatorSet: Option<Snapshot>
    var registry: map<AgentID, Fingerprint>
    var records: map<EventID, VoteRecord>
    var orderSeq: nat
    var persistence: Option<VoteStore>

    constructor (cfg: Config, committee: EventID -> Option<set<AgentID>>, p: Option<VoteStore>)
      ensures this.cfg == cfg && this.committee == committee
      ensures Abs() == Initial(p)
    {
      this.cfg, this.committee := cfg, committee;
      validatorSet, registry, records, orderSeq, persistence := None, map[], map[], 0, p;
    }

    ghost function Abs(): State
      reads this
    {
      State(validatorSet, registry, records, orderSeq, persistence)
    }

    /** The checks made before the lock: a weight in the current set (or registry), and a committee seat if there is a
    committee for the event. */
    function Admission(e: EventID, v: AgentID): Option<VoteError>
      reads this
    {
      if v !in CurrentWeights(validatorSet, registry) then Some(NotEligible)
      else if committee(e).Some? && v !in committee(e).value then Some(NotInCommittee)
      else None
    }

    method ApplyOutcome(e: EventID, t: VoteRecord, outcome: Outcome, advance: bool)
      requires e in records
      modifies this
      ensures Abs() == AfterOutcome(old(Abs()), e, t, outcome, advance)
    {
      if outcome == Approved {
        var value := ComputeWeightedMedian(t);
        FinalValueUnique(t, value);
        orderSeq := orderSeq + 1;
        records := records[e := t.(finalized := true, finalVerdict := true, finalValue := value,
                                   finalOrder := orderSeq)];
        persistence := DeleteVotes(persistence, e);
      } else if outcome == Rejected {
        orderSeq := orderSeq + 1;
        records := records[e := t.(finalized := true, finalVerdict := false, finalValue := 0,
                                   finalOrder := orderSeq)];
        persistence := DeleteVotes(persistence, e);
      } else {
        records := records[e := if advance then t.(round := t.round + 1) else t];
      }
    }

    method TallyVotesLocked(e: EventID, advance: bool)
      requires e in records
      modifies this
      ensures Abs() == AfterTally(cfg, old(Abs()), e, advance)
    {
      var r := records[e];
      if r.finalized {
        return;
      }
      if r.round > cfg.maxRounds {
        return;
      }
      var w := if r.bound.Some? then r.bound.value.weights else CurrentWeights(validatorSet, registry);
      var totalWeight, yesWeight, noWeight := TallyWeights(w, r.votes);
      var t := r.(totalWeight := totalWeight, yesWeight := yesWeight, noWeight := noWeight);
      var outcome := DecideOutcome(cfg, r.totalActiveWeight, yesWeight, noWeight, totalWeight, |r.votes|);
      ApplyOutcome(e, t, outcome, advance);
    }

    method RegisterVote(e: EventID, v: AgentID, vote: bool, value: nat) returns (err: Option<VoteError>)
      modifies this
      ensures Abs() == Step(cfg, old(Abs()), Register(e, v, vote, value, old(Admission(e, v)).None?))
      ensures err == if old(Admission(e, v)).Some? then old(Admission(e, v))
                     else RegisterError(cfg, RecordOf(old(Abs()), e), v)
    {
      err := Admission(e, v);
      if err.Some? {
        return;
      }
      if e !in records {
        records := records[e := NewRecord(validatorSet)];
      }
      var r := records[e];
      assert records == old(records)[e := RecordOf(old(Abs()), e)];
      if r.finalized {
        return Some(AlreadyFinalized);
      }
      if r.round > cfg.maxRounds {
        return Some(RoundExhausted);
      }
      if v in r.votes {
        return Some(DuplicateVote);
      }
      records := records[e := WithVote(r, v, vote, value)];
      persistence := PutVote(persistence, e, v, vote);
      assert Abs() == Recorded(old(Abs()), e, v, vote, value) by {
        assert records == old(records)[e := WithVote(r, v, vote, value)];
      }
      TallyVotesLocked(e, false);
    }

    method TallyVotes(e: EventID) returns (err: Option<VoteError>)
      modifies this
      ensures Abs() == Step(cfg, old(Abs()), Tally(e))
      ensures err == if e in old(records) then None else Some(EventNotFound)
    {
      if e !in records {
        return Some(EventNotFound);
      }
      TallyVotesLocked(e, true);
      return None;
    }

    method ChangeValidatorSet(s: Option<Snapshot>)
      modifies this
      ensures Abs() == Step(cfg, old(Abs()), SetValidatorSet(s))
    {
      validatorSet := s;
    }

    method MarkCallbackFired(e: EventID) returns (first: bool)
      modifies this
      ensures Abs() == Step(cfg, old(Abs()), MarkCallback(e))
      ensures first == CanMark(old(Abs()), e)
    {
      if e !in records || !records[e].finalized || records[e].callbackFired {
        return false;
      }
      records := records[e := records[e].(callbackFired := true)];
      return true;
    }
  }

  lemma FinalValueUnique(r: VoteRecord, m: nat)
    requires IsFinalValue(r, m)
    ensures m == FinalValue(r)
  {
    if Approvers(r) != {} {
      MedianUnique(ApproveValues(r), ApproveWeights(r), m, FinalValue(r));
    }
  }
}
