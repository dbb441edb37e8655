/** What nodes agree on over whole runs. */
module VotingAgreement {
  import opened Collections
  import opened WeightedSets
  import opened WeightedMedian
  import opened Voting
  import opened VotingSafety
  import opened VotingRuns
  import opened VotingHearing

  // ---- agreement between nodes

  /** Two nodes, any two runs, also runs that begin by loading the votes of a former life: if both bound the same
  snapshot to the event and one approved what the other rejected, some voter of positive weight is on record with both
  votes. */
  lemma CrossNodeAgreement(cfg: Config, cfg': Config, st: State, st': State,
                           actions: seq<Action>, actions': seq<Action>, e: EventID, s: Snapshot)
    returns (v: AgentID)
    requires Started(st) && Started(st') && cfg.threshold == cfg'.threshold && SnapshotOk(s)
    requires var a, b := Run(cfg, st, actions), Run(cfg', st', actions');
      && e in a.records && a.records[e].bound == Some(s) && a.records[e].finalized && a.records[e].finalVerdict
      && e in b.records && b.records[e].bound == Some(s) && b.records[e].finalized && !b.records[e].finalVerdict
    ensures var a, b := Run(cfg, st, actions).records[e].votes, Run(cfg', st', actions').records[e].votes;
      v in a && v in b && a[v] && !b[v] && v in s.weights && s.weights[v] > 0
  {
    RunSound(cfg, st, actions);
    RunSound(cfg', st', actions');
    var ra, rb := Run(cfg, st, actions).records[e], Run(cfg', st', actions').records[e];
    assert Settled(cfg, ra) && Settled(cfg', rb);
    v := ConflictNamesEquivocator(cfg, cfg', s, ra.votes, rb.votes);
  }

  // ---- every seat has voted

  /** In any run, a record on which every seat with weight has voted, with enough participants, is finalized. */
  lemma FullVoteFinalizes(cfg: Config, st: State, actions: seq<Action>, e: EventID, s: Snapshot)
    requires Started(st) && SnapshotOk(s) && s.activeWeight == Sum(s.weights, s.weights.Keys) > 0
    requires var end := Run(cfg, st, actions);
      && e in end.records && end.records[e].bound == Some(s)
      && (forall v :: v in s.weights && s.weights[v] > 0 ==> v in end.records[e].votes)
      && |end.records[e].votes| >= cfg.minParticipants
    ensures Run(cfg, st, actions).records[e].finalized
  {
    RunSound(cfg, st, actions);
    var r := Run(cfg, st, actions).records[e];
    assert Settled(cfg, r) && Shaped(r, Run(cfg, st, actions).orderSeq);
    var v := SumPositive(s.weights, s.weights.Keys);
    FullVoteDecides(cfg, s, r.votes);
  }

  // ---- two nodes split by one small voter

  /** The three votes as one node hears them; the other hears `z` differently. */
  function SmallBallots(z: bool): seq<Ballot> {
    [Ballot("a", true, 0), Ballot("b", false, 0), Ballot("z", z, 0)]
  }

  lemma SmallVotes(z: bool)
    ensures VotesOf(SmallBallots(z)) == if z then SEEN_BY_ONE else SEEN_BY_OTHER
    ensures |VotesOf(SmallBallots(z)[..1])| < 3 && |VotesOf(SmallBallots(z)[..2])| < 3
  {
    var bs := SmallBallots(z);
    Prefixes(bs);
    assert VotesOf(bs[..1]) == map["a" := true];
    assert VotesOf(bs[..2]) == map["a" := true, "b" := false];
  }

  /** Two runs of fresh nodes that differ only in the vote of one voter, who has 6.7% of the weight: one finalizes the
  event approved, the other rejected. */
  lemma SmallEquivocatorSplitsNodes(e: EventID)
    ensures var cfg := Config(0.667, 10, 3);
      var one := Run(cfg, Initial(None), Hears(e, SMALL, SmallBallots(true)));
      var other := Run(cfg, Initial(None), Hears(e, SMALL, SmallBallots(false)));
      && e in one.records && one.records[e].finalized && one.records[e].finalVerdict
      && e in other.records && other.records[e].finalized && !other.records[e].finalVerdict
      && one.records[e].bound == other.records[e].bound == Some(SMALL)
  {
    SmallEquivocatorSplitsVerdict();
    SmallHeard(e, true);
    SmallHeard(e, false);
  }

  lemma SmallHeard(e: EventID, z: bool)
    ensures var cfg := Config(0.667, 10, 3);
      var end := Run(cfg, Initial(None), Hears(e, SMALL, SmallBallots(z)));
      && e in end.records && end.records[e].bound == Some(SMALL)
      && Verdict(end.records[e]) ==
         Outcomes(cfg, SMALL.weights, SMALL.activeWeight, if z then SEEN_BY_ONE else SEEN_BY_OTHER)
  {
    var cfg, bs := Config(0.667, 10, 3), SmallBallots(z);
    SmallVotes(z);
    forall n | 0 < n < |bs|
      ensures Outcomes(cfg, SMALL.weights, SMALL.activeWeight, VotesOf(bs[..n])) == Undecided
    {
      assert n == 1 || n == 2;
    }
    HeardAll(cfg, Initial(None), e, SMALL, bs);
  }

  // ---- the agreed value

  /** A group of approvers that holds more than half of the approve weight. */
  ghost predicate Majority(r: VoteRecord, group: set<AgentID>) {
    group <= Approvers(r) && 2 * Sum(ApproveWeights(r), group) > Sum(ApproveWeights(r), Approvers(r))
  }

  ghost predicate ApprovedIn(st: State, e: EventID) {
    e in st.records && st.records[e].finalized && st.records[e].finalVerdict
  }

  /** In any run, the value of an approved event lies between the smallest and the largest value of any group of
  approvers that holds more than half of the approve weight. */
  lemma MajorityBoundsFinalValue(cfg: Config, st: State, actions: seq<Action>, e: EventID,
                                 group: set<AgentID>, lo: nat, hi: nat)
    requires Started(st) && ApprovedIn(Run(cfg, st, actions), e) && Majority(Run(cfg, st, actions).records[e], group)
    requires forall v :: v in group ==> lo <= ValueOf(Run(cfg, st, actions).records[e], v) <= hi
    ensures lo <= Run(cfg, st, actions).records[e].finalValue <= hi
  {
    RunSound(cfg, st, actions);
    var r := Run(cfg, st, actions).records[e];
    assert Shaped(r, Run(cfg, st, actions).orderSeq);
    assert ApproveWeights(r).Keys == ApproveValues(r).Keys == Approvers(r);
    MajorityBoundsMedian(ApproveValues(r), ApproveWeights(r), r.finalValue, group, lo, hi);
  }

  /** The weights the median adds up exceed the snapshot's own total by at most one per approver, so the sum fits 64
  bits whenever the active weight leaves that much room. */
  lemma MedianTotalFits(r: VoteRecord)
    requires r.bound.Some? && SnapshotOk(r.bound.value)
    ensures Sum(ApproveWeights(r), Approvers(r)) <= r.bound.value.activeWeight + |Approvers(r)|
  {
    var w := r.bound.value.weights;
    AtMostOneMore(ApproveWeights(r), w, Approvers(r));
    SumSubset(w, Approvers(r) * w.Keys, w.Keys);
  }

  lemma {:induction false} AtMostOneMore(m: map<AgentID, nat>, w: map<AgentID, nat>, s: set<AgentID>)
    requires s <= m.Keys
    requires forall v :: v in s ==> m[v] <= (if v in w then w[v] else 0) + 1
    ensures Sum(m, s) <= Sum(w, s * w.Keys) + |s|
    decreases |s|
  {
    if s != {} {
      var v :| v in s;
      SumRemove(m, s, v);
      AtMostOneMore(m, w, s - {v});
      if v in w {
        SumRemove(w, s * w.Keys, v);
        assert s * w.Keys - {v} == (s - {v}) * w.Keys;
      } else {
        assert s * w.Keys == (s - {v}) * w.Keys;
      }
    }
  }
}
