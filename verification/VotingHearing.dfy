/** A node that binds a validator set and then hears ballots one by one: what its run ends with. */
module VotingHearing {
  import opened Collections
  import opened Voting
  import opened VotingRuns

  datatype Ballot = Ballot(voter: AgentID, vote: bool, value: nat)

  function Cast(e: EventID, b: Ballot): Action {
    Register(e, b.voter, b.vote, b.value, true)
  }

  /** The calls such a node makes. */
  function Hears(e: EventID, s: Snapshot, bs: seq<Ballot>): seq<Action> {
    if bs == [] then [SetValidatorSet(Some(s))] else Hears(e, s, bs[..|bs| - 1]) + [Cast(e, bs[|bs| - 1])]
  }

  function VotesOf(bs: seq<Ballot>): map<AgentID, bool> {
    if bs == [] then map[] else VotesOf(bs[..|bs| - 1])[bs[|bs| - 1].voter := bs[|bs| - 1].vote]
  }

  function ValuesOf(bs: seq<Ballot>): map<AgentID, nat> {
    if bs == [] then map[] else ValuesOf(bs[..|bs| - 1])[bs[|bs| - 1].voter := bs[|bs| - 1].value]
  }

  ghost predicate OneBallotEach(bs: seq<Ballot>) {
    forall i, j :: 0 <= i < j < |bs| ==> bs[i].voter != bs[j].voter
  }

  lemma Prefixes(bs: seq<Ballot>)
    ensures bs[..|bs|] == bs && forall i, j :: 0 <= i <= j <= |bs| ==> bs[..j][..i] == bs[..i]
  {
  }

  lemma {:induction false} VotersOf(bs: seq<Ballot>, v: AgentID)
    ensures v in VotesOf(bs) <==> exists i :: 0 <= i < |bs| && bs[i].voter == v
    ensures v in ValuesOf(bs) <==> v in VotesOf(bs)
  {
    if bs != [] {
      VotersOf(bs[..|bs| - 1], v);
      assert bs[..|bs| - 1] + [bs[|bs| - 1]] == bs;
    }
  }

  /** Of one ballot each, all count. */
  lemma {:induction false} BallotCounts(bs: seq<Ballot>)
    requires OneBallotEach(bs)
    ensures |VotesOf(bs)| == |bs|
    ensures forall b :: b in bs ==>
              && b.voter in VotesOf(bs) && VotesOf(bs)[b.voter] == b.vote
              && b.voter in ValuesOf(bs) && ValuesOf(bs)[b.voter] == b.value
  {
    if bs != [] {
      var front, last := bs[..|bs| - 1], bs[|bs| - 1];
      assert bs == front + [last];
      BallotCounts(front);
      VotersOf(front, last.voter);
      forall b | b in front
        ensures b.voter != last.voter
      {
        var i :| 0 <= i < |front| && front[i] == b;
        assert bs[i] == b;
      }
    }
  }

  // ---- one ballot

  /** The event has these votes and values, under the snapshot it was opened with. */
  ghost predicate OnRecord(st: State, e: EventID, s: Snapshot, votes: map<AgentID, bool>, values: map<AgentID, nat>) {
    && e in st.records && st.records[e].votes == votes && st.records[e].values == values
    && st.records[e].bound == Some(s) && st.records[e].round == 1
  }

  /** Under the current set the event has these votes and values, or has not been heard of. */
  ghost predicate Holding(st: State, e: EventID, s: Snapshot, votes: map<AgentID, bool>, values: map<AgentID, nat>) {
    && st.validatorSet == Some(s)
    && (if e in st.records then OnRecord(st, e, s, votes, values) else votes == map[] && values == map[])
  }

  ghost predicate OpenFor(st: State, e: EventID) {
    e in st.records ==> !st.records[e].finalized
  }

  lemma TallyLeavesVotes(cfg: Config, st: State, e: EventID)
    requires e in st.records
    ensures var st' := AfterTally(cfg, st, e, false);
      && st'.validatorSet == st.validatorSet && e in st'.records
      && st'.records[e].votes == st.records[e].votes && st'.records[e].bound == st.records[e].bound
      && st'.records[e].values == st.records[e].values && st'.records[e].round == st.records[e].round
  {
  }

  /** A ballot of a new voter is added to the open record. */
  lemma BallotTaken(cfg: Config, st: State, e: EventID, s: Snapshot,
                    votes: map<AgentID, bool>, values: map<AgentID, nat>, b: Ballot)
    requires Holding(st, e, s, votes, values) && OpenFor(st, e) && b.voter !in votes && cfg.maxRounds >= 1
    ensures var st' := Step(cfg, st, Cast(e, b));
      e in st'.records && Holding(st', e, s, votes[b.voter := b.vote], values[b.voter := b.value])
  {
    TallyLeavesVotes(cfg, Recorded(st, e, b.voter, b.vote, b.value), e);
  }

  /** The same under whatever set is current by then. */
  lemma BallotAdded(cfg: Config, st: State, e: EventID, s: Snapshot,
                    votes: map<AgentID, bool>, values: map<AgentID, nat>, b: Ballot)
    requires OnRecord(st, e, s, votes, values) && OpenFor(st, e) && b.voter !in votes && cfg.maxRounds >= 1
    ensures OnRecord(Step(cfg, st, Cast(e, b)), e, s, votes[b.voter := b.vote], values[b.voter := b.value])
  {
    TallyLeavesVotes(cfg, Recorded(st, e, b.voter, b.vote, b.value), e);
  }

  lemma RunThen(cfg: Config, st: State, actions: seq<Action>, a: Action)
    ensures Run(cfg, st, actions + [a]) == Step(cfg, Run(cfg, st, actions), a)
  {
    assert (actions + [a])[..|actions + [a]| - 1] == actions;
  }

  /** What is on record decides the verdict. */
  lemma VerdictOf(cfg: Config, st: State, e: EventID, s: Snapshot, votes: map<AgentID, bool>, values: map<AgentID, nat>)
    requires Sound(cfg, st) && OnRecord(st, e, s, votes, values) && votes != map[]
    ensures Verdict(st.records[e]) == Outcomes(cfg, s.weights, s.activeWeight, votes)
  {
    assert Settled(cfg, st.records[e]) && Shaped(st.records[e], st.orderSeq);
  }

  // ---- all ballots

  /** The event stays open until the last of the ballots. */
  ghost predicate OpenUntilLast(cfg: Config, s: Snapshot, bs: seq<Ballot>) {
    forall n :: 0 < n < |bs| ==> Outcomes(cfg, s.weights, s.activeWeight, VotesOf(bs[..n])) == Undecided
  }

  lemma FrontOpen(cfg: Config, s: Snapshot, bs: seq<Ballot>)
    requires OpenUntilLast(cfg, s, bs) && OneBallotEach(bs) && bs != []
    ensures var front := bs[..|bs| - 1];
      && OpenUntilLast(cfg, s, front) && OneBallotEach(front) && bs[|bs| - 1].voter !in VotesOf(front)
      && (front != [] ==> Outcomes(cfg, s.weights, s.activeWeight, VotesOf(front)) == Undecided)
  {
    var front := bs[..|bs| - 1];
    assert forall n :: 0 < n < |front| ==> front[..n] == bs[..n];
    VotersOf(front, bs[|bs| - 1].voter);
  }

  ghost predicate Heard(cfg: Config, end: State, e: EventID, s: Snapshot, bs: seq<Ballot>) {
    && Holding(end, e, s, VotesOf(bs), ValuesOf(bs)) && (e in end.records <==> bs != [])
    && (bs != [] ==> Verdict(end.records[e]) == Outcomes(cfg, s.weights, s.activeWeight, VotesOf(bs)))
  }

  lemma HeardNext(cfg: Config, st: State, e: EventID, s: Snapshot, bs: seq<Ballot>)
    requires cfg.maxRounds >= 1 && bs != [] && Heard(cfg, st, e, s, bs[..|bs| - 1])
    requires bs[|bs| - 1].voter !in VotesOf(bs[..|bs| - 1]) && OpenFor(st, e)
    requires Sound(cfg, Step(cfg, st, Cast(e, bs[|bs| - 1])))
    ensures Heard(cfg, Step(cfg, st, Cast(e, bs[|bs| - 1])), e, s, bs)
  {
    var front, b := bs[..|bs| - 1], bs[|bs| - 1];
    BallotTaken(cfg, st, e, s, VotesOf(front), ValuesOf(front), b);
    assert b.voter in VotesOf(bs);
    VerdictOf(cfg, Step(cfg, st, Cast(e, b)), e, s, VotesOf(bs), ValuesOf(bs));
  }

  /** A node that hears the ballots in this order, with the event open until the last, ends with exactly their votes and
  values and with the verdict of their tally. */
  lemma {:induction false} HeardAll(cfg: Config, st: State, e: EventID, s: Snapshot, bs: seq<Ballot>)
    requires Started(st) && cfg.maxRounds >= 1 && OneBallotEach(bs) && OpenUntilLast(cfg, s, bs)
    ensures Heard(cfg, Run(cfg, st, Hears(e, s, bs)), e, s, bs)
  {
    if bs == [] {
      RunThen(cfg, st, [], SetValidatorSet(Some(s)));
      assert [] + Hears(e, s, bs) == Hears(e, s, bs);
    } else {
      var front, b := bs[..|bs| - 1], bs[|bs| - 1];
      FrontOpen(cfg, s, bs);
      HeardAll(cfg, st, e, s, front);
      RunThen(cfg, st, Hears(e, s, front), Cast(e, b));
      RunSound(cfg, st, Hears(e, s, bs));
      HeardNext(cfg, Run(cfg, st, Hears(e, s, front)), e, s, bs);
    }
  }
}
