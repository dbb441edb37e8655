/** What a verdict means: agreement between nodes, stability under further votes, and decisiveness. */
module VotingSafety {
  import opened Collections
  import opened WeightedSets
  import opened Voting

  /** With a snapshot whose total is honest no `uint64` sum wraps, and the two sides share the active weight. */
  lemma TallyExact(s: Snapshot, votes: map<AgentID, bool>)
    requires SnapshotOk(s)
    ensures SideWeight(s.weights, votes, true) == Sum(s.weights, Side(s.weights, votes, true))
    ensures SideWeight(s.weights, votes, false) == Sum(s.weights, Side(s.weights, votes, false))
    ensures CountedWeight(s.weights, votes) ==
            SideWeight(s.weights, votes, true) + SideWeight(s.weights, votes, false) <= s.activeWeight
  {
    var w := s.weights;
    var yes, no := Side(w, votes, true), Side(w, votes, false);
    SumUnion(w, yes, no);
    assert yes + no == votes.Keys * w.Keys;
    SumSubset(w, yes + no, w.Keys);
    SumSubset(w, yes, w.Keys);
    SumSubset(w, no, w.Keys);
  }

  // ---- the decision on plain numbers

  lemma DecideOpposite(cfg: Config, cfg': Config, active: nat,
                       yes: nat, no: nat, total: nat, voters: nat, yes': nat, no': nat, total': nat, voters': nat)
    requires active > 0 && cfg.threshold == cfg'.threshold
    requires Decide(cfg, active, yes, no, total, voters) == Approved
    requires Decide(cfg', active, yes', no', total', voters') == Rejected
    ensures yes + no' > active
  {
    var quorum := cfg.threshold * active as real;
    assert yes as real >= quorum;
    assert no' as real > active as real - quorum;
  }

  lemma DecideGrows(cfg: Config, active: nat,
                    yes: nat, no: nat, total: nat, voters: nat, yes': nat, no': nat, total': nat, voters': nat)
    requires active > 0 && yes <= yes' && no <= no' && voters <= voters' && yes' + no' <= active
    requires Decide(cfg, active, yes, no, total, voters) != Undecided
    ensures Decide(cfg, active, yes', no', total', voters') == Decide(cfg, active, yes, no, total, voters)
  {
    var quorum := cfg.threshold * active as real;
    assert yes as real >= quorum || no as real > active as real - quorum;
  }

  lemma DecideComplete(cfg: Config, active: nat, yes: nat, no: nat, total: nat, voters: nat)
    requires active > 0 && yes + no == active && voters >= cfg.minParticipants
    ensures Decide(cfg, active, yes, no, total, voters) != Undecided
  {
  }

  // ---- agreement

  /** Eligible voters recorded as yes in `a` and as no in `b`. */
  ghost function Equivocators(s: Snapshot, a: map<AgentID, bool>, b: map<AgentID, bool>): set<AgentID> {
    set v | v in a && v in b && v in s.weights && a[v] && !b[v]
  }

  /** Opposite verdicts on one snapshot expose equivocation: the voters recorded on opposite sides carry at least the
  weight by which the two winning sides overshoot the whole. */
  lemma ConflictWeighsEquivocators(cfg: Config, cfg': Config, s: Snapshot,
                                   a: map<AgentID, bool>, b: map<AgentID, bool>)
    requires SnapshotOk(s) && cfg.threshold == cfg'.threshold
    requires Outcomes(cfg, s.weights, s.activeWeight, a) == Approved
    requires Outcomes(cfg', s.weights, s.activeWeight, b) == Rejected
    ensures SideWeight(s.weights, a, true) + SideWeight(s.weights, b, false) > s.activeWeight
    ensures Sum(s.weights, Equivocators(s, a, b)) >=
            SideWeight(s.weights, a, true) + SideWeight(s.weights, b, false) - s.activeWeight
  {
    TallyExact(s, a);
    TallyExact(s, b);
    assert s.activeWeight > 0;
    DecideOpposite(cfg, cfg', s.activeWeight,
      SideWeight(s.weights, a, true), SideWeight(s.weights, a, false), CountedWeight(s.weights, a), |a|,
      SideWeight(s.weights, b, true), SideWeight(s.weights, b, false), CountedWeight(s.weights, b), |b|);
    var yes, no := Side(s.weights, a, true), Side(s.weights, b, false);
    SumOverlap(s.weights, yes, no);
    assert yes * no == Equivocators(s, a, b);
  }

  /** ... so some voter of positive weight is recorded with both votes, and nodes that record consistent votes cannot
  reach opposite verdicts. */
  lemma ConflictNamesEquivocator(cfg: Config, cfg': Config, s: Snapshot, a: map<AgentID, bool>, b: map<AgentID, bool>)
    returns (v: AgentID)
    requires SnapshotOk(s) && cfg.threshold == cfg'.threshold
    requires Outcomes(cfg, s.weights, s.activeWeight, a) == Approved
    requires Outcomes(cfg', s.weights, s.activeWeight, b) == Rejected
    ensures v in a && v in b && a[v] && !b[v] && v in s.weights && s.weights[v] > 0
  {
    ConflictWeighsEquivocators(cfg, cfg', s, a, b);
    v := SumPositive(s.weights, Equivocators(s, a, b));
  }

  // ---- early finalization

  ghost predicate Extends(votes: map<AgentID, bool>, votes': map<AgentID, bool>) {
    forall v :: v in votes ==> v in votes' && votes'[v] == votes[v]
  }

  lemma ExtensionGrows(s: Snapshot, votes: map<AgentID, bool>, votes': map<AgentID, bool>, side: bool)
    requires SnapshotOk(s) && Extends(votes, votes')
    ensures SideWeight(s.weights, votes, side) <= SideWeight(s.weights, votes', side)
    ensures |votes| <= |votes'|
  {
    TallyExact(s, votes);
    TallyExact(s, votes');
    SumSubset(s.weights, Side(s.weights, votes, side), Side(s.weights, votes', side));
    SubsetSizes(votes.Keys, votes'.Keys);
  }

  /** A verdict on part of the votes is the verdict on every consistent extension of them. */
  lemma EarlyVerdictIsFinal(cfg: Config, s: Snapshot, votes: map<AgentID, bool>, votes': map<AgentID, bool>)
    requires SnapshotOk(s) && Extends(votes, votes')
    requires Outcomes(cfg, s.weights, s.activeWeight, votes) != Undecided
    ensures Outcomes(cfg, s.weights, s.activeWeight, votes') == Outcomes(cfg, s.weights, s.activeWeight, votes)
  {
    ExtensionGrows(s, votes, votes', true);
    ExtensionGrows(s, votes, votes', false);
    TallyExact(s, votes);
    TallyExact(s, votes');
    assert s.activeWeight > 0;
    DecideGrows(cfg, s.activeWeight,
      SideWeight(s.weights, votes, true), SideWeight(s.weights, votes, false),
      CountedWeight(s.weights, votes), |votes|,
      SideWeight(s.weights, votes', true), SideWeight(s.weights, votes', false),
      CountedWeight(s.weights, votes'), |votes'|);
  }

  /** Conversely nothing is lost by stopping early: part of an undecided set of votes is undecided too. */
  lemma PartOfUndecided(cfg: Config, s: Snapshot, votes: map<AgentID, bool>, votes': map<AgentID, bool>)
    requires SnapshotOk(s) && Extends(votes, votes')
    requires Outcomes(cfg, s.weights, s.activeWeight, votes') == Undecided
    ensures Outcomes(cfg, s.weights, s.activeWeight, votes) == Undecided
  {
    if Outcomes(cfg, s.weights, s.activeWeight, votes) != Undecided {
      EarlyVerdictIsFinal(cfg, s, votes, votes');
    }
  }

  lemma FullVoteWeight(s: Snapshot, votes: map<AgentID, bool>)
    requires SnapshotOk(s) && s.activeWeight == Sum(s.weights, s.weights.Keys)
    requires forall v :: v in s.weights && s.weights[v] > 0 ==> v in votes
    ensures SideWeight(s.weights, votes, true) + SideWeight(s.weights, votes, false) == s.activeWeight
  {
    TallyExact(s, votes);
    var w := s.weights;
    var voted, silent := votes.Keys * w.Keys, w.Keys - votes.Keys;
    SumUnion(w, voted, silent);
    assert voted + silent == w.Keys;
    if Sum(w, silent) > 0 {
      var v := SumPositive(w, silent);
    }
    SumSubset(w, voted, w.Keys);
  }

  /** Once every seat of positive weight has voted, and the total is exactly theirs, the tally decides. */
  lemma FullVoteDecides(cfg: Config, s: Snapshot, votes: map<AgentID, bool>)
    requires SnapshotOk(s) && s.activeWeight == Sum(s.weights, s.weights.Keys) > 0
    requires forall v :: v in s.weights && s.weights[v] > 0 ==> v in votes
    requires |votes| >= cfg.minParticipants
    ensures Outcomes(cfg, s.weights, s.activeWeight, votes) != Undecided
  {
    FullVoteWeight(s, votes);
    DecideComplete(cfg, s.activeWeight, SideWeight(s.weights, votes, true), SideWeight(s.weights, votes, false),
                   CountedWeight(s.weights, votes), |votes|);
  }

  // ---- how little equivocation suffices

  const SMALL: Snapshot := Snapshot(1, map["a" := 600, "b" := 333, "z" := 67], 1000)
  const SEEN_BY_ONE: map<AgentID, bool> := map["a" := true, "b" := false, "z" := true]
  const SEEN_BY_OTHER: map<AgentID, bool> := map["a" := true, "b" := false, "z" := false]

  lemma SumOfThree(w: map<AgentID, nat>, x: AgentID, y: AgentID, z: AgentID)
    requires {x, y, z} <= w.Keys && x != y && y != z && x != z
    ensures Sum(w, {x}) == w[x]
    ensures Sum(w, {x, y}) == w[x] + w[y]
    ensures Sum(w, {x, y, z}) == w[x] + w[y] + w[z]
  {
    SumRemove(w, {x}, x);
    SumRemove(w, {x, y}, y);
    SumRemove(w, {x, y, z}, z);
    assert {x} - {x} == {} && {x, y} - {y} == {x} && {x, y, z} - {z} == {x, y};
  }

  lemma SplitNumbers(total: nat)
    ensures Decide(Config(0.667, 10, 3), 1000, 667, 333, total, 3) == Approved
    ensures Decide(Config(0.667, 10, 3), 1000, 600, 400, total, 3) == Rejected
  {
  }

  lemma SplitWeights()
    ensures SnapshotOk(SMALL) && Sum(SMALL.weights, SMALL.weights.Keys) == 1000
    ensures SideWeight(SMALL.weights, SEEN_BY_ONE, true) == 667 && SideWeight(SMALL.weights, SEEN_BY_ONE, false) == 333
    ensures SideWeight(SMALL.weights, SEEN_BY_OTHER, true) == 600
    ensures SideWeight(SMALL.weights, SEEN_BY_OTHER, false) == 400
  {
    var w := SMALL.weights;
    assert w.Keys == {"a", "z", "b"};
    SumOfThree(w, "a", "z", "b");
    SumOfThree(w, "b", "z", "a");
    assert Side(w, SEEN_BY_ONE, true) == {"a", "z"} && Side(w, SEEN_BY_ONE, false) == {"b"};
    assert Side(w, SEEN_BY_OTHER, true) == {"a"} && Side(w, SEEN_BY_OTHER, false) == {"b", "z"};
  }

  /** The package comment promises that no coalition of at most one third of the weight can make correct nodes finalize
  differently. A single voter with 6.7% does, all other votes being the same on both nodes, under the default
  threshold and participation. */
  lemma SmallEquivocatorSplitsVerdict()
    ensures SnapshotOk(SMALL)
    ensures forall v :: v in SEEN_BY_ONE && v != "z" ==> v in SEEN_BY_OTHER && SEEN_BY_OTHER[v] == SEEN_BY_ONE[v]
    ensures 3 * SMALL.weights["z"] < SMALL.activeWeight == Sum(SMALL.weights, SMALL.weights.Keys)
    ensures Outcomes(Config(0.667, 10, 3), SMALL.weights, SMALL.activeWeight, SEEN_BY_ONE) == Approved
    ensures Outcomes(Config(0.667, 10, 3), SMALL.weights, SMALL.activeWeight, SEEN_BY_OTHER) == Rejected
  {
    SplitWeights();
    SplitNumbers(CountedWeight(SMALL.weights, SEEN_BY_ONE));
    SplitNumbers(CountedWeight(SMALL.weights, SEEN_BY_OTHER));
    assert |SEEN_BY_ONE| == 3 && |SEEN_BY_OTHER| == 3;
  }

  // ---- exactly which coalitions can split the verdict

  ghost predicate SplitBy(cfg: Config, s: Snapshot, coalition: set<AgentID>,
                          a: map<AgentID, bool>, b: map<AgentID, bool>)
  {
    && (forall v :: v in a && v in b && v !in coalition ==> a[v] == b[v])
    && Outcomes(cfg, s.weights, s.activeWeight, a) == Approved
    && Outcomes(cfg, s.weights, s.activeWeight, b) == Rejected
  }

  /** Two nodes that record the same votes of everybody outside the coalition can reach opposite verdicts. */
  ghost predicate CanSplit(cfg: Config, s: Snapshot, coalition: set<AgentID>) {
    exists a, b :: SplitBy(cfg, s, coalition, a, b)
  }

  predicate Quorate(cfg: Config, active: nat, weight: nat) {
    weight as real >= cfg.threshold * active as real
  }

  lemma DecideQuorate(cfg: Config, active: nat, yes: nat, no: nat, total: nat, voters: nat)
    requires active > 0 && yes + no == active && voters >= cfg.minParticipants
    ensures Decide(cfg, active, yes, no, total, voters) == if Quorate(cfg, active, yes) then Approved else Rejected
  {
  }

  lemma ApprovedQuorate(cfg: Config, active: nat, yes: nat, no: nat, total: nat, voters: nat, more: nat)
    requires active > 0 && Decide(cfg, active, yes, no, total, voters) == Approved && yes <= more
    ensures Quorate(cfg, active, more)
  {
  }

  lemma RejectedShort(cfg: Config, active: nat, yes: nat, no: nat, total: nat, voters: nat, rest: nat)
    requires Decide(cfg, active, yes, no, total, voters) == Rejected && rest + no <= active
    ensures !Quorate(cfg, active, rest)
  {
  }

  /** An honest group that falls short of the quorum alone and reaches it together with the coalition. */
  ghost predicate Pivots(cfg: Config, s: Snapshot, coalition: set<AgentID>, group: set<AgentID>) {
    && group <= s.weights.Keys - coalition
    && !Quorate(cfg, s.activeWeight, Sum(s.weights, group))
    && Quorate(cfg, s.activeWeight, Sum(s.weights, group) + Sum(s.weights, coalition * s.weights.Keys))
  }

  ghost function BallotsFor(s: Snapshot, yes: set<AgentID>): map<AgentID, bool> {
    map v | v in s.weights :: v in yes
  }

  lemma BallotWeights(s: Snapshot, yes: set<AgentID>)
    requires SnapshotOk(s) && s.activeWeight == Sum(s.weights, s.weights.Keys) && yes <= s.weights.Keys
    ensures SideWeight(s.weights, BallotsFor(s, yes), true) == Sum(s.weights, yes)
    ensures SideWeight(s.weights, BallotsFor(s, yes), false) == s.activeWeight - Sum(s.weights, yes)
    ensures |BallotsFor(s, yes)| == |s.weights|
  {
    var votes := BallotsFor(s, yes);
    TallyExact(s, votes);
    assert Side(s.weights, votes, true) == yes && Side(s.weights, votes, false) == s.weights.Keys - yes;
    SumUnion(s.weights, yes, s.weights.Keys - yes);
    assert yes + (s.weights.Keys - yes) == s.weights.Keys;
    assert votes.Keys == s.weights.Keys;
  }

  /** With every seat voting, the verdict is approval or rejection as the yes side reaches the quorum or not. */
  lemma BallotsDecide(cfg: Config, s: Snapshot, yes: set<AgentID>)
    requires SnapshotOk(s) && s.activeWeight == Sum(s.weights, s.weights.Keys) > 0 && yes <= s.weights.Keys
    requires |s.weights| >= cfg.minParticipants
    ensures Outcomes(cfg, s.weights, s.activeWeight, BallotsFor(s, yes)) ==
            if Quorate(cfg, s.activeWeight, Sum(s.weights, yes)) then Approved else Rejected
  {
    BallotWeights(s, yes);
    var votes := BallotsFor(s, yes);
    DecideQuorate(cfg, s.activeWeight, SideWeight(s.weights, votes, true), SideWeight(s.weights, votes, false),
                  CountedWeight(s.weights, votes), |votes|);
  }

  lemma PivotSplits(cfg: Config, s: Snapshot, coalition: set<AgentID>, group: set<AgentID>)
    requires SnapshotOk(s) && s.activeWeight == Sum(s.weights, s.weights.Keys) > 0
    requires |s.weights| >= cfg.minParticipants && Pivots(cfg, s, coalition, group)
    ensures CanSplit(cfg, s, coalition)
  {
    var helpers := coalition * s.weights.Keys;
    SumUnion(s.weights, group, helpers);
    BallotsDecide(cfg, s, group + helpers);
    BallotsDecide(cfg, s, group);
    assert SplitBy(cfg, s, coalition, BallotsFor(s, group + helpers), BallotsFor(s, group));
  }

  lemma SplitHasPivot(cfg: Config, s: Snapshot, coalition: set<AgentID>, a: map<AgentID, bool>, b: map<AgentID, bool>)
    returns (group: set<AgentID>)
    requires SnapshotOk(s) && SplitBy(cfg, s, coalition, a, b)
    ensures Pivots(cfg, s, coalition, group)
  {
    group := Side(s.weights, a, true) - coalition;
    GroupWeights(s, coalition, a, b);
    ApprovedQuorate(cfg, s.activeWeight, SideWeight(s.weights, a, true), SideWeight(s.weights, a, false),
                    CountedWeight(s.weights, a), |a|,
                    Sum(s.weights, group) + Sum(s.weights, coalition * s.weights.Keys));
    RejectedShort(cfg, s.activeWeight, SideWeight(s.weights, b, true), SideWeight(s.weights, b, false),
                  CountedWeight(s.weights, b), |b|, Sum(s.weights, group));
  }

  lemma GroupWeights(s: Snapshot, coalition: set<AgentID>, a: map<AgentID, bool>, b: map<AgentID, bool>)
    requires SnapshotOk(s) && forall v :: v in a && v in b && v !in coalition ==> a[v] == b[v]
    ensures var group := Side(s.weights, a, true) - coalition;
      && SideWeight(s.weights, a, true) <= Sum(s.weights, group) + Sum(s.weights, coalition * s.weights.Keys)
      && Sum(s.weights, group) + SideWeight(s.weights, b, false) <= s.activeWeight
  {
    var w := s.weights;
    TallyExact(s, a);
    TallyExact(s, b);
    var yes, no, helpers := Side(w, a, true), Side(w, b, false), coalition * w.Keys;
    var group := yes - coalition;
    SumUnion(w, group, helpers);
    SumSubset(w, yes, group + helpers);
    SumUnion(w, group, no);
    SumSubset(w, group + no, w.Keys);
  }

  /** A coalition can split the verdict if and only if some honest group falls short of the quorum alone and reaches it
  with the coalition. */
  lemma SplitExactly(cfg: Config, s: Snapshot, coalition: set<AgentID>)
    requires SnapshotOk(s) && s.activeWeight == Sum(s.weights, s.weights.Keys) > 0
    requires |s.weights| >= cfg.minParticipants
    ensures CanSplit(cfg, s, coalition) <==> exists group :: Pivots(cfg, s, coalition, group)
  {
    if CanSplit(cfg, s, coalition) {
      var a, b :| SplitBy(cfg, s, coalition, a, b);
      var group := SplitHasPivot(cfg, s, coalition, a, b);
    }
    if group :| Pivots(cfg, s, coalition, group) {
      PivotSplits(cfg, s, coalition, group);
    }
  }

  /** A coalition without weight splits nothing, and one that reaches a positive threshold alone always can. */
  lemma SplitExtremes(cfg: Config, s: Snapshot, coalition: set<AgentID>)
    requires SnapshotOk(s) && s.activeWeight == Sum(s.weights, s.weights.Keys) > 0
    requires |s.weights| >= cfg.minParticipants && cfg.threshold > 0.0
    ensures Sum(s.weights, coalition * s.weights.Keys) == 0 ==> !CanSplit(cfg, s, coalition)
    ensures Quorate(cfg, s.activeWeight, Sum(s.weights, coalition * s.weights.Keys)) ==> CanSplit(cfg, s, coalition)
  {
    SplitExactly(cfg, s, coalition);
    if Quorate(cfg, s.activeWeight, Sum(s.weights, coalition * s.weights.Keys)) {
      NothingIsShort(cfg, s.activeWeight);
      assert Pivots(cfg, s, coalition, {});
    }
  }

  lemma NothingIsShort(cfg: Config, active: nat)
    requires cfg.threshold > 0.0 && active > 0
    ensures !Quorate(cfg, active, 0)
  {
  }
}
