/** How far nodes agree on the value of an approved event. Each takes the median of the approvals it holds when it
reaches the quorum, so the values differ with the order of arrival. */
module VotingValues {
  import opened Collections
  import opened WeightedSets
  import opened WeightedMedian
  import opened Voting
  import opened VotingSafety
  import opened VotingRuns
  import opened VotingHearing
  import opened VotingAgreement

  // ---- the approvals behind a value

  /** The weight of some voters in a tally; voters without a seat have none. */
  ghost function Counted(s: Snapshot, group: set<AgentID>): nat {
    Sum(s.weights, group * s.weights.Keys)
  }

  predicate HasSeat(s: Snapshot, v: AgentID) {
    v in s.weights && s.weights[v] > 0
  }

  /** Voters without weight in the snapshot. They are recorded when the current set admits them, and count one each in
  the median. */
  ghost function Unseated(s: Snapshot, group: set<AgentID>): set<AgentID> {
    set v | v in group && !HasSeat(s, v)
  }

  /** What voters weigh in the median under the snapshot. */
  ghost function Voices(s: Snapshot, ids: set<AgentID>): map<AgentID, nat> {
    map v | v in ids :: if HasSeat(s, v) then s.weights[v] else 1
  }

  lemma {:induction false} VoicesSum(s: Snapshot, ids: set<AgentID>, group: set<AgentID>)
    requires group <= ids
    ensures Sum(Voices(s, ids), group) == Counted(s, group) + |Unseated(s, group)|
    decreases |group|
  {
    if group != {} {
      var v :| v in group;
      SumRemove(Voices(s, ids), group, v);
      VoicesSum(s, ids, group - {v});
      CountedRemove(s, group, v);
      assert Unseated(s, group - {v}) == Unseated(s, group) - {v};
    }
  }

  lemma MedianWeights(r: VoteRecord, s: Snapshot, group: set<AgentID>)
    requires r.bound == Some(s) && group <= Approvers(r)
    ensures Sum(ApproveWeights(r), group) == Counted(s, group) + |Unseated(s, group)|
  {
    assert ApproveWeights(r) == Voices(s, Approvers(r));
    VoicesSum(s, Approvers(r), group);
  }

  lemma CountedRemove(s: Snapshot, group: set<AgentID>, v: AgentID)
    requires v in group
    ensures Counted(s, group) == (if v in s.weights then s.weights[v] else 0) + Counted(s, group - {v})
  {
    if v in s.weights {
      SumRemove(s.weights, group * s.weights.Keys, v);
      assert group * s.weights.Keys - {v} == (group - {v}) * s.weights.Keys;
    } else {
      assert group * s.weights.Keys == (group - {v}) * s.weights.Keys;
    }
  }

  lemma CountedUnion(s: Snapshot, a: set<AgentID>, b: set<AgentID>)
    requires a !! b
    ensures Counted(s, a + b) == Counted(s, a) + Counted(s, b)
  {
    SumUnion(s.weights, a * s.weights.Keys, b * s.weights.Keys);
    assert (a + b) * s.weights.Keys == a * s.weights.Keys + b * s.weights.Keys;
  }

  lemma CountedSubset(s: Snapshot, a: set<AgentID>, b: set<AgentID>)
    requires a <= b
    ensures Counted(s, a) <= Counted(s, b)
  {
    CountedUnion(s, a, b - a);
    assert a + (b - a) == b;
  }

  /** In any run the approvers of an approved event are a quorum. */
  lemma ApproversQuorate(cfg: Config, st: State, actions: seq<Action>, e: EventID, s: Snapshot)
    requires Started(st) && ApprovedIn(Run(cfg, st, actions), e) && s.activeWeight > 0
    requires Run(cfg, st, actions).records[e].bound == Some(s)
    ensures Quorate(cfg, s.activeWeight, Counted(s, Approvers(Run(cfg, st, actions).records[e])))
  {
    RunSound(cfg, st, actions);
    var r := Run(cfg, st, actions).records[e];
    assert Settled(cfg, r) && Shaped(r, Run(cfg, st, actions).orderSeq);
    var yes := Side(s.weights, r.votes, true);
    assert yes == Approvers(r) * s.weights.Keys;
    WrapAtMost(Sum(s.weights, yes));
    ApprovedQuorate(cfg, s.activeWeight, SideWeight(s.weights, r.votes, true), SideWeight(s.weights, r.votes, false),
                    CountedWeight(s.weights, r.votes), |r.votes|, Sum(s.weights, yes));
  }

  // ---- a bound against voters who report anything

  ghost function Outside(s: Snapshot, group: set<AgentID>): nat {
    Sum(s.weights, s.weights.Keys - group)
  }

  /** The seats outside the group make a quorum with some inside that do not outweigh them and `k` voters without a
  seat. */
  ghost predicate Sways(cfg: Config, s: Snapshot, group: set<AgentID>, k: nat, rest: set<AgentID>) {
    && rest <= group && Counted(s, rest) <= Outside(s, group) + k
    && Quorate(cfg, s.activeWeight, Outside(s, group) + Counted(s, rest))
  }

  /** An approved record with at most `k` approvers that are neither in the group nor seated, on which the group reports
  values from `lo` to `hi`. */
  ghost predicate ReportsWithin(st: State, e: EventID, s: Snapshot, group: set<AgentID>, k: nat, lo: nat, hi: nat) {
    && ApprovedIn(st, e) && st.records[e].bound == Some(s)
    && |Unseated(s, Approvers(st.records[e]) - group)| <= k
    && forall v :: v in Approvers(st.records[e]) && v in group ==> lo <= ValueOf(st.records[e], v) <= hi
  }

  lemma InsideIsMajority(cfg: Config, r: VoteRecord, s: Snapshot, group: set<AgentID>, k: nat)
    requires r.bound == Some(s) && |Unseated(s, Approvers(r) - group)| <= k
    requires Quorate(cfg, s.activeWeight, Counted(s, Approvers(r)))
    requires !Sways(cfg, s, group, k, Approvers(r) * group)
    ensures Majority(r, Approvers(r) * group)
  {
    var inside, outside := Approvers(r) * group, Approvers(r) - group;
    assert inside + outside == Approvers(r);
    CountedUnion(s, inside, outside);
    SumUnion(ApproveWeights(r), inside, outside);
    MedianWeights(r, s, inside);
    MedianWeights(r, s, outside);
    SumSubset(s.weights, outside * s.weights.Keys, s.weights.Keys - group);
    MoreIsQuorate(cfg, s.activeWeight, Counted(s, Approvers(r)), Outside(s, group) + Counted(s, inside));
  }

  lemma MoreIsQuorate(cfg: Config, active: nat, x: nat, y: nat)
    requires Quorate(cfg, active, x) && x <= y
    ensures Quorate(cfg, active, y)
  {
  }

  /** If nothing sways a group, the value of an approved event lies in the range of the group's values on every node and
  in every run, whatever the others report and to whom. */
  lemma GroupBoundsValue(cfg: Config, st: State, actions: seq<Action>, e: EventID, s: Snapshot,
                         group: set<AgentID>, k: nat, lo: nat, hi: nat)
    requires Started(st) && s.activeWeight > 0 && ReportsWithin(Run(cfg, st, actions), e, s, group, k, lo, hi)
    requires !exists rest :: Sways(cfg, s, group, k, rest)
    ensures lo <= Run(cfg, st, actions).records[e].finalValue <= hi
  {
    var r := Run(cfg, st, actions).records[e];
    ApproversQuorate(cfg, st, actions, e, s);
    InsideIsMajority(cfg, r, s, group, k);
    MajorityBoundsFinalValue(cfg, st, actions, e, Approvers(r) * group, lo, hi);
  }

  /** Twice the weight outside the group, and one for each of `k` voters without a seat, stay below the quorum. */
  ghost predicate FewOutside(cfg: Config, s: Snapshot, group: set<AgentID>, k: nat) {
    2.0 * Outside(s, group) as real + k as real < cfg.threshold * s.activeWeight as real
  }

  /** Few voters outside a group never sway it. */
  lemma FewNeverSway(cfg: Config, s: Snapshot, group: set<AgentID>, k: nat)
    requires FewOutside(cfg, s, group, k)
    ensures s.activeWeight > 0 && !exists rest :: Sways(cfg, s, group, k, rest)
  {
    assert s.activeWeight == 0 ==> cfg.threshold * s.activeWeight as real == 0.0;
    if rest :| Sways(cfg, s, group, k, rest) {
      TooLight(cfg.threshold * s.activeWeight as real, Outside(s, group), Counted(s, rest), k);
    }
  }

  lemma TooLight(quorum: real, out: nat, rest: nat, k: nat)
    requires 2.0 * out as real + k as real < quorum && rest <= out + k
    ensures (out + rest) as real < quorum
  {
    assert out + rest <= 2 * out + k;
  }

  // ---- voters without a seat do move the value

  const ALONE: Snapshot := Snapshot(1, map["a" := 1], 1)
  const LATER: Snapshot := Snapshot(2, map["x" := 1, "y" := 1], 2)
  const THREE_NEEDED: Config := Config(0.667, 10, 3)

  const OWN: Ballot := Ballot("a", true, 10)
  const THEIRS: seq<Ballot> := [Ballot("x", true, 999), Ballot("y", true, 999)]

  /** The only seat approves, the set changes, voters of the new set approve. */
  function OutsiderActions(e: EventID, n: nat): seq<Action>
    requires n <= 2
  {
    if n == 0 then Hears(e, ALONE, [OWN]) + [SetValidatorSet(Some(LATER))]
    else OutsiderActions(e, n - 1) + [Cast(e, THEIRS[n - 1])]
  }

  lemma AloneOutcome(votes: map<AgentID, bool>)
    requires "a" in votes && votes["a"]
    ensures Outcomes(THREE_NEEDED, ALONE.weights, ALONE.activeWeight, votes) ==
            if |votes| < 3 then Undecided else Approved
  {
    var w := ALONE.weights;
    assert Side(w, votes, true) == {"a"};
    SumRemove(w, {"a"}, "a");
    assert Sum(w, {"a"}) == 1;
  }

  /** The record after the ballots of `n` outsiders. */
  ghost predicate Overheard(e: EventID, n: nat)
    requires n <= 2
  {
    var end := Run(THREE_NEEDED, Initial(None), OutsiderActions(e, n));
    && OnRecord(end, e, ALONE, VotesOf([OWN] + THEIRS[..n]), ValuesOf([OWN] + THEIRS[..n]))
    && Verdict(end.records[e]) == if n < 2 then Undecided else Approved
  }

  lemma OwnHeard(e: EventID)
    ensures Overheard(e, 0)
  {
    HeardAll(THREE_NEEDED, Initial(None), e, ALONE, [OWN]);
    assert [OWN][..0] == [] && [OWN] + THEIRS[..0] == [OWN];
    assert VotesOf([OWN]) == map["a" := true];
    AloneOutcome(VotesOf([OWN]));
    RunThen(THREE_NEEDED, Initial(None), Hears(e, ALONE, [OWN]), SetValidatorSet(Some(LATER)));
  }

  lemma TheirVotes(n: nat)
    requires n <= 2
    ensures var bs := [OWN] + THEIRS[..n];
      && "a" in VotesOf(bs) && VotesOf(bs)["a"] && |VotesOf(bs)| == n + 1
      && (n < 2 ==> THEIRS[n].voter !in VotesOf(bs) && [OWN] + THEIRS[..n + 1] == bs + [THEIRS[n]])
  {
    var bs := [OWN] + THEIRS[..n];
    BallotCounts(bs);
    assert OWN in bs;
    if n < 2 {
      VotersOf(bs, THEIRS[n].voter);
    }
  }

  lemma OneMoreHeard(e: EventID, n: nat)
    requires n < 2 && Overheard(e, n)
    ensures Overheard(e, n + 1)
  {
    var cfg, st, before := THREE_NEEDED, Initial(None), OutsiderActions(e, n);
    var bs, b := [OWN] + THEIRS[..n], THEIRS[n];
    TheirVotes(n);
    TheirVotes(n + 1);
    BallotAdded(cfg, Run(cfg, st, before), e, ALONE, VotesOf(bs), ValuesOf(bs), b);
    RunThen(cfg, st, before, Cast(e, b));
    RunSound(cfg, st, before + [Cast(e, b)]);
    assert (bs + [b])[..|bs|] == bs;
    VerdictOf(cfg, Run(cfg, st, before + [Cast(e, b)]), e, ALONE, VotesOf(bs + [b]), ValuesOf(bs + [b]));
    AloneOutcome(VotesOf(bs + [b]));
  }

  lemma OutsidersHeard(e: EventID)
    ensures var end := Run(THREE_NEEDED, Initial(None), OutsiderActions(e, 2));
      ApprovedIn(end, e) && OnRecord(end, e, ALONE, VotesOf([OWN] + THEIRS), ValuesOf([OWN] + THEIRS))
  {
    OwnHeard(e);
    OneMoreHeard(e, 0);
    OneMoreHeard(e, 1);
    assert [OWN] + THEIRS[..2] == [OWN] + THEIRS;
  }

  lemma OutsidersWeigh(r: VoteRecord)
    requires r.bound == Some(ALONE) && Approvers(r) == {"a", "x", "y"}
    ensures Majority(r, {"x", "y"})
  {
    var theirs, all := {"x", "y"}, {"a", "x", "y"};
    MedianWeights(r, ALONE, theirs);
    MedianWeights(r, ALONE, all);
    assert Unseated(ALONE, theirs) == theirs && Unseated(ALONE, all) == theirs;
    CountedRemove(ALONE, all, "a");
    assert all - {"a"} == theirs;
    assert theirs * ALONE.weights.Keys == {};
  }

  lemma AllInside()
    ensures FewOutside(THREE_NEEDED, ALONE, {"a"}, 0)
  {
    assert ALONE.weights.Keys - {"a"} == {};
  }

  lemma OutsidersReport(r: VoteRecord)
    requires r.votes == VotesOf([OWN] + THEIRS) && r.values == ValuesOf([OWN] + THEIRS)
    ensures Approvers(r) == {"a", "x", "y"}
    ensures ValueOf(r, "a") == 10 && ValueOf(r, "x") == 999 && ValueOf(r, "y") == 999
  {
    var bs := [OWN] + THEIRS;
    assert bs[0] == OWN && bs[1] == THEIRS[0] && bs[2] == THEIRS[1];
    BallotCounts(bs);
    forall v
      ensures v in Approvers(r) <==> v in {"a", "x", "y"}
    {
      VotersOf(bs, v);
    }
  }

  /** All the weight of the bound snapshot reports 10, and the value is 999: two voters admitted by a later set are not
  tallied, but have a voice each in the median. */
  lemma OutsidersMoveValue(e: EventID)
    ensures var end := Run(THREE_NEEDED, Initial(None), OutsiderActions(e, 2));
      && ApprovedIn(end, e) && end.records[e].bound == Some(ALONE) && FewOutside(THREE_NEEDED, ALONE, {"a"}, 0)
      && Approvers(end.records[e]) == {"a", "x", "y"} && ValueOf(end.records[e], "a") == 10
      && end.records[e].finalValue == 999
  {
    OutsidersHeard(e);
    var end := Run(THREE_NEEDED, Initial(None), OutsiderActions(e, 2));
    OutsidersReport(end.records[e]);
    OutsidersWeigh(end.records[e]);
    AllInside();
    MajorityBoundsFinalValue(THREE_NEEDED, Initial(None), OutsiderActions(e, 2), e, {"x", "y"}, 999, 999);
  }

  // ---- two nodes, one set of votes, two values

  const FOUR: Snapshot := Snapshot(1, map["a" := 25, "b" := 25, "c" := 25, "d" := 25], 100)
  const TWO_THIRDS: Config := Config(0.667, 10, 1)

  /** The first three or the last three of four approvals with the values 0, 10, 20 and 30. */
  function Three(last: bool): seq<Ballot> {
    if last then [Ballot("b", true, 10), Ballot("c", true, 20), Ballot("d", true, 30)]
    else [Ballot("a", true, 0), Ballot("b", true, 10), Ballot("c", true, 20)]
  }

  /** Approvals of seats of weight 25 weigh 25 each. */
  lemma FourSide(votes: map<AgentID, bool>)
    requires votes.Keys <= FOUR.weights.Keys && forall v :: v in votes ==> votes[v]
    ensures SideWeight(FOUR.weights, votes, true) == 25 * |votes| && SideWeight(FOUR.weights, votes, false) == 0
    ensures SnapshotOk(FOUR)
  {
    var w := FOUR.weights;
    assert w.Keys == {"a", "b", "c", "d"};
    FourSum(w.Keys);
    assert SnapshotOk(FOUR);
    TallyExact(FOUR, votes);
    assert Side(w, votes, true) == votes.Keys && Side(w, votes, false) == {};
    FourSum(votes.Keys);
    assert |votes.Keys| == |votes|;
  }

  lemma {:induction false} FourSum(s: set<AgentID>)
    requires s <= FOUR.weights.Keys
    ensures Sum(FOUR.weights, s) == 25 * |s|
    decreases |s|
  {
    if s != {} {
      var v :| v in s;
      SumRemove(FOUR.weights, s, v);
      FourSum(s - {v});
      assert FOUR.weights[v] == 25;
    }
  }

  lemma FourNumbers(total: nat)
    ensures Decide(TWO_THIRDS, 100, 25, 0, total, 1) == Undecided
    ensures Decide(TWO_THIRDS, 100, 50, 0, total, 2) == Undecided
    ensures Decide(TWO_THIRDS, 100, 75, 0, total, 3) == Approved
  {
  }

  lemma FourOutcome(votes: map<AgentID, bool>)
    requires votes.Keys <= FOUR.weights.Keys && (forall v :: v in votes ==> votes[v]) && 1 <= |votes| <= 3
    ensures Outcomes(TWO_THIRDS, FOUR.weights, FOUR.activeWeight, votes) == if |votes| == 3 then Approved else Undecided
  {
    FourSide(votes);
    FourNumbers(CountedWeight(FOUR.weights, votes));
  }

  lemma ThreeVotes(last: bool)
    ensures var bs := Three(last);
      && VotesOf(bs[..1]) == map[bs[0].voter := true]
      && VotesOf(bs[..2]) == map[bs[0].voter := true, bs[1].voter := true]
      && VotesOf(bs) == map[bs[0].voter := true, bs[1].voter := true, bs[2].voter := true]
      && ValuesOf(bs) == map[bs[0].voter := bs[0].value, bs[1].voter := bs[1].value, bs[2].voter := bs[2].value]
  {
    var bs := Three(last);
    Prefixes(bs);
    assert VotesOf(bs[..0]) == map[] && ValuesOf(bs[..0]) == map[];
    assert VotesOf(bs[..1]) == map[bs[0].voter := true] && ValuesOf(bs[..1]) == map[bs[0].voter := bs[0].value];
    assert VotesOf(bs[..2]) == map[bs[0].voter := true, bs[1].voter := true];
    assert ValuesOf(bs[..2]) == map[bs[0].voter := bs[0].value, bs[1].voter := bs[1].value];
  }

  lemma ThreeOutcome(last: bool, n: nat)
    requires 1 <= n <= 3
    ensures Outcomes(TWO_THIRDS, FOUR.weights, FOUR.activeWeight, VotesOf(Three(last)[..n])) ==
            if n == 3 then Approved else Undecided
  {
    var bs := Three(last);
    ThreeVotes(last);
    assert bs[..3] == bs;
    var votes := VotesOf(bs[..n]);
    assert |votes| == n;
    FourOutcome(votes);
  }

  lemma ThreeOpen(last: bool)
    ensures OneBallotEach(Three(last)) && OpenUntilLast(TWO_THIRDS, FOUR, Three(last))
    ensures Outcomes(TWO_THIRDS, FOUR.weights, FOUR.activeWeight, VotesOf(Three(last))) == Approved
  {
    var bs := Three(last);
    forall n | 0 < n < |bs|
      ensures Outcomes(TWO_THIRDS, FOUR.weights, FOUR.activeWeight, VotesOf(bs[..n])) == Undecided
    {
      ThreeOutcome(last, n);
    }
    ThreeOutcome(last, 3);
    assert bs[..3] == bs;
  }

  lemma ThreeHeard(e: EventID, last: bool)
    ensures var end := Run(TWO_THIRDS, Initial(None), Hears(e, FOUR, Three(last)));
      && ApprovedIn(end, e) && end.records[e].bound == Some(FOUR)
      && end.records[e].votes == VotesOf(Three(last)) && end.records[e].values == ValuesOf(Three(last))
  {
    ThreeOpen(last);
    HeardAll(TWO_THIRDS, Initial(None), e, FOUR, Three(last));
  }

  lemma TwoOfThree(r: VoteRecord, x: AgentID, y: AgentID, z: AgentID)
    requires r.bound == Some(FOUR) && Approvers(r) == {x, y, z} && {x, y, z} <= FOUR.weights.Keys
    requires x != y && y != z && x != z
    ensures Majority(r, {x, y})
  {
    FourSeats(r, {x, y});
    FourSeats(r, {x, y, z});
    assert |{x, y}| == 2 && |{x, y, z}| == 3;
  }

  lemma FourSeats(r: VoteRecord, group: set<AgentID>)
    requires r.bound == Some(FOUR) && group <= Approvers(r) && group <= FOUR.weights.Keys
    ensures Sum(ApproveWeights(r), group) == 25 * |group|
  {
    MedianWeights(r, FOUR, group);
    assert Unseated(FOUR, group) == {} && group * FOUR.weights.Keys == group;
    FourSum(group);
  }

  lemma PairBounds(cfg: Config, st: State, actions: seq<Action>, e: EventID, x: AgentID, y: AgentID)
    requires Started(st) && ApprovedIn(Run(cfg, st, actions), e)
    requires var r := Run(cfg, st, actions).records[e]; Majority(r, {x, y}) && ValueOf(r, x) <= ValueOf(r, y)
    ensures var r := Run(cfg, st, actions).records[e]; ValueOf(r, x) <= r.finalValue <= ValueOf(r, y)
  {
    var r := Run(cfg, st, actions).records[e];
    MajorityBoundsFinalValue(cfg, st, actions, e, {x, y}, ValueOf(r, x), ValueOf(r, y));
  }

  /** Of three equal weights any two are a majority, so the median is the middle value. */
  lemma MiddleValue(cfg: Config, st: State, actions: seq<Action>, e: EventID, x: AgentID, y: AgentID, z: AgentID)
    requires Started(st) && ApprovedIn(Run(cfg, st, actions), e) && {x, y, z} <= FOUR.weights.Keys
    requires x != y && y != z && x != z
    requires var r := Run(cfg, st, actions).records[e];
      && r.bound == Some(FOUR) && Approvers(r) == {x, y, z}
      && ValueOf(r, x) <= ValueOf(r, y) <= ValueOf(r, z)
    ensures Run(cfg, st, actions).records[e].finalValue == ValueOf(Run(cfg, st, actions).records[e], y)
  {
    var r := Run(cfg, st, actions).records[e];
    assert {y, z, x} == {x, y, z};
    TwoOfThree(r, x, y, z);
    TwoOfThree(r, y, z, x);
    PairBounds(cfg, st, actions, e, x, y);
    PairBounds(cfg, st, actions, e, y, z);
  }

  lemma ThreeReport(r: VoteRecord, last: bool)
    requires r.votes == VotesOf(Three(last)) && r.values == ValuesOf(Three(last))
    ensures var bs := Three(last);
      && Approvers(r) == {bs[0].voter, bs[1].voter, bs[2].voter} <= FOUR.weights.Keys
      && ValueOf(r, bs[0].voter) == bs[0].value && ValueOf(r, bs[1].voter) == bs[1].value
      && ValueOf(r, bs[2].voter) == bs[2].value
  {
    ThreeVotes(last);
  }

  lemma ThreeValue(e: EventID, last: bool)
    ensures var end := Run(TWO_THIRDS, Initial(None), Hears(e, FOUR, Three(last)));
      ApprovedIn(end, e) && end.records[e].finalValue == if last then 20 else 10
  {
    var bs := Three(last);
    ThreeHeard(e, last);
    ThreeReport(Run(TWO_THIRDS, Initial(None), Hears(e, FOUR, bs)).records[e], last);
    MiddleValue(TWO_THIRDS, Initial(None), Hears(e, FOUR, bs), e, bs[0].voter, bs[1].voter, bs[2].voter);
  }

  /** Four voters of equal weight approve with the values 0, 10, 20 and 30. A node that hears the first three fixes the
  value 10, one that hears the last three fixes 20; no vote and no value differs between them. */
  lemma ConsistentVotesTwoValues(e: EventID)
    ensures var one := Run(TWO_THIRDS, Initial(None), Hears(e, FOUR, Three(false)));
      var other := Run(TWO_THIRDS, Initial(None), Hears(e, FOUR, Three(true)));
      && ApprovedIn(one, e) && ApprovedIn(other, e)
      && one.records[e].finalValue == 10 && other.records[e].finalValue == 20
      && (forall v :: v in one.records[e].votes && v in other.records[e].votes ==>
            && one.records[e].votes[v] == other.records[e].votes[v]
            && ValueOf(one.records[e], v) == ValueOf(other.records[e], v))
  {
    ThreeHeard(e, false);
    ThreeHeard(e, true);
    ThreeVotes(false);
    ThreeVotes(true);
    ThreeValue(e, false);
    ThreeValue(e, true);
  }
}
