/** Exactly when all nodes fix the same value, and exactly when a group confines it: every way of missing the median on
paper is the end of some run. */
module VotingSettling {
  import opened Collections
  import opened WeightedSets
  import opened WeightedMedian
  import opened Voting
  import opened VotingSafety
  import opened VotingRuns
  import opened VotingHearing
  import opened VotingAgreement
  import opened VotingValues

  // ---- the median of some voters

  ghost function Under(value: map<AgentID, nat>, yes: set<AgentID>, m: nat): set<AgentID> {
    set v | v in yes && v in value && value[v] < m
  }

  ghost function Over(value: map<AgentID, nat>, yes: set<AgentID>, m: nat): set<AgentID> {
    set v | v in yes && v in value && value[v] > m
  }

  /** `m` is the weighted median of the values of `yes`. */
  ghost predicate MedianOn(w: map<AgentID, nat>, value: map<AgentID, nat>, yes: set<AgentID>, m: nat)
    requires yes <= w.Keys
  {
    2 * Sum(w, Under(value, yes, m)) <= Sum(w, yes) < 2 * Sum(w, yes - Over(value, yes, m))
  }

  /** The approvers are among those with a given value, and reported it. */
  ghost predicate Reports(r: VoteRecord, value: map<AgentID, nat>) {
    forall v :: v in Approvers(r) ==> v in value && ValueOf(r, v) == value[v]
  }

  /** An approved record under the snapshot whose approvers reported the given values. */
  ghost predicate Fixed(st: State, e: EventID, s: Snapshot, value: map<AgentID, nat>) {
    ApprovedIn(st, e) && st.records[e].bound == Some(s) && Reports(st.records[e], value)
  }

  lemma VoicesAgree(r: VoteRecord, s: Snapshot, ids: set<AgentID>, group: set<AgentID>)
    requires r.bound == Some(s) && group <= Approvers(r) <= ids
    ensures Sum(ApproveWeights(r), group) == Sum(Voices(s, ids), group)
  {
    SumAgree(ApproveWeights(r), Voices(s, ids), group);
  }

  lemma MedianSums(r: VoteRecord, s: Snapshot, value: map<AgentID, nat>, m: nat)
    requires r.bound == Some(s) && Reports(r, value)
    ensures var w, yes := Voices(s, value.Keys), Approvers(r);
      && yes <= w.Keys
      && Below(ApproveValues(r), ApproveWeights(r), m) == Sum(w, Under(value, yes, m))
      && Below(ApproveValues(r), ApproveWeights(r), m + 1) == Sum(w, yes - Over(value, yes, m))
      && Sum(ApproveWeights(r), yes) == Sum(w, yes)
  {
    var yes, vals := Approvers(r), ApproveValues(r);
    assert VotersBelow(vals, m) == Under(value, yes, m);
    assert VotersBelow(vals, m + 1) == yes - Over(value, yes, m);
    VoicesAgree(r, s, value.Keys, Under(value, yes, m));
    VoicesAgree(r, s, value.Keys, yes - Over(value, yes, m));
    VoicesAgree(r, s, value.Keys, yes);
  }

  lemma SomeoneAt(value: map<AgentID, nat>, weight: map<AgentID, nat>, m: nat)
    requires value.Keys == weight.Keys && Below(value, weight, m) < Below(value, weight, m + 1)
    ensures m in value.Values
  {
    if VotersBelow(value, m) != VotersBelow(value, m + 1) {
      var v :| v in VotersBelow(value, m + 1) && v !in VotersBelow(value, m);
      assert value[v] == m;
    }
  }

  /** The value of a record is the median of its approvers. */
  lemma MedianOnRecord(r: VoteRecord, s: Snapshot, value: map<AgentID, nat>, m: nat)
    requires r.bound == Some(s) && Reports(r, value) && Approvers(r) != {}
    ensures Approvers(r) <= value.Keys
    ensures IsFinalValue(r, m) <==> MedianOn(Voices(s, value.Keys), value, Approvers(r), m)
  {
    var vals, ws := ApproveValues(r), ApproveWeights(r);
    assert vals.Keys == ws.Keys == Approvers(r);
    MedianSums(r, s, value, m);
    if Below(vals, ws, m) < Below(vals, ws, m + 1) {
      SomeoneAt(vals, ws, m);
    }
  }

  lemma {:induction false} OneFinalValue(r: VoteRecord, m: nat, n: nat)
    requires IsFinalValue(r, m) && IsFinalValue(r, n)
    ensures m == n
  {
    if Approvers(r) != {} {
      MedianUnique(ApproveValues(r), ApproveWeights(r), m, n);
    }
  }

  // ---- on paper: the quorums whose median is not m

  /** A quorum of voters. */
  ghost predicate Enough(cfg: Config, s: Snapshot, yes: set<AgentID>) {
    Quorate(cfg, s.activeWeight, Counted(s, yes))
  }

  /** A quorum whose median is not `m`. */
  ghost predicate Misses(cfg: Config, s: Snapshot, value: map<AgentID, nat>, m: nat, yes: set<AgentID>) {
    yes <= value.Keys && Enough(cfg, s, yes) && !MedianOn(Voices(s, value.Keys), value, yes, m)
  }

  /** The voters below `m` make a quorum with others that weigh less than they do. */
  ghost predicate PullsDown(cfg: Config, s: Snapshot, value: map<AgentID, nat>, m: nat, rest: set<AgentID>) {
    var low, w := Under(value, value.Keys, m), Voices(s, value.Keys);
    && rest <= value.Keys - low && Sum(w, rest) < Sum(w, low)
    && Quorate(cfg, s.activeWeight, Counted(s, low) + Counted(s, rest))
  }

  /** The voters above `m` make a quorum with others that weigh no more than they do. */
  ghost predicate PullsUp(cfg: Config, s: Snapshot, value: map<AgentID, nat>, m: nat, rest: set<AgentID>) {
    var high, w := Over(value, value.Keys, m), Voices(s, value.Keys);
    && rest <= value.Keys - high && Sum(w, rest) <= Sum(w, high)
    && Quorate(cfg, s.activeWeight, Counted(s, high) + Counted(s, rest))
  }

  lemma Parted(w: map<AgentID, nat>, yes: set<AgentID>, part: set<AgentID>)
    requires part <= yes <= w.Keys
    ensures Sum(w, part) + Sum(w, yes - part) == Sum(w, yes)
  {
    SumUnion(w, part, yes - part);
    assert part + (yes - part) == yes;
  }

  /** Some voters of a quorum taken together with all that are on one side of `m` are a quorum, too. */
  lemma MoreOfASide(cfg: Config, s: Snapshot, yes: set<AgentID>, part: set<AgentID>, all: set<AgentID>)
    requires Enough(cfg, s, yes) && part <= yes && part <= all
    ensures Quorate(cfg, s.activeWeight, Counted(s, all) + Counted(s, yes - part))
  {
    CountedUnion(s, part, yes - part);
    assert part + (yes - part) == yes;
    CountedSubset(s, part, all);
    MoreIsQuorate(cfg, s.activeWeight, Counted(s, yes), Counted(s, all) + Counted(s, yes - part));
  }

  lemma LowPulls(cfg: Config, s: Snapshot, value: map<AgentID, nat>, m: nat, yes: set<AgentID>)
    requires yes <= value.Keys && Enough(cfg, s, yes)
    requires 2 * Sum(Voices(s, value.Keys), Under(value, yes, m)) > Sum(Voices(s, value.Keys), yes)
    ensures PullsDown(cfg, s, value, m, yes - Under(value, yes, m))
  {
    var low, all, w := Under(value, yes, m), Under(value, value.Keys, m), Voices(s, value.Keys);
    Parted(w, yes, low);
    SumSubset(w, low, all);
    MoreOfASide(cfg, s, yes, low, all);
    assert yes - low <= value.Keys - all;
  }

  lemma HighPulls(cfg: Config, s: Snapshot, value: map<AgentID, nat>, m: nat, yes: set<AgentID>)
    requires yes <= value.Keys && Enough(cfg, s, yes)
    requires 2 * Sum(Voices(s, value.Keys), yes - Over(value, yes, m)) <= Sum(Voices(s, value.Keys), yes)
    ensures PullsUp(cfg, s, value, m, yes - Over(value, yes, m))
  {
    var high, all, w := Over(value, yes, m), Over(value, value.Keys, m), Voices(s, value.Keys);
    Parted(w, yes, high);
    SumSubset(w, high, all);
    MoreOfASide(cfg, s, yes, high, all);
    assert yes - high <= value.Keys - all;
  }

  lemma DownMisses(cfg: Config, s: Snapshot, value: map<AgentID, nat>, m: nat, rest: set<AgentID>)
    requires PullsDown(cfg, s, value, m, rest)
    ensures Misses(cfg, s, value, m, Under(value, value.Keys, m) + rest)
  {
    var low, w := Under(value, value.Keys, m), Voices(s, value.Keys);
    SumUnion(w, low, rest);
    CountedUnion(s, low, rest);
    assert Under(value, low + rest, m) == low;
  }

  lemma UpMisses(cfg: Config, s: Snapshot, value: map<AgentID, nat>, m: nat, rest: set<AgentID>)
    requires PullsUp(cfg, s, value, m, rest)
    ensures Misses(cfg, s, value, m, Over(value, value.Keys, m) + rest)
  {
    var high, w := Over(value, value.Keys, m), Voices(s, value.Keys);
    SumUnion(w, high, rest);
    CountedUnion(s, high, rest);
    assert high + rest - Over(value, high + rest, m) == rest;
  }

  /** Some quorum misses `m` exactly when something pulls down or up. */
  lemma MissesIffPulled(cfg: Config, s: Snapshot, value: map<AgentID, nat>, m: nat)
    ensures (exists yes :: Misses(cfg, s, value, m, yes)) <==>
            exists rest :: PullsDown(cfg, s, value, m, rest) || PullsUp(cfg, s, value, m, rest)
  {
    if rest :| PullsDown(cfg, s, value, m, rest) {
      DownMisses(cfg, s, value, m, rest);
    } else if rest :| PullsUp(cfg, s, value, m, rest) {
      UpMisses(cfg, s, value, m, rest);
    } else {
      forall yes
        ensures !Misses(cfg, s, value, m, yes)
      {
        if Misses(cfg, s, value, m, yes) {
          MissIsPulled(cfg, s, value, m, yes);
        }
      }
    }
  }

  lemma MissIsPulled(cfg: Config, s: Snapshot, value: map<AgentID, nat>, m: nat, yes: set<AgentID>)
    requires Misses(cfg, s, value, m, yes)
    ensures PullsDown(cfg, s, value, m, yes - Under(value, yes, m))
            || PullsUp(cfg, s, value, m, yes - Over(value, yes, m))
  {
    if 2 * Sum(Voices(s, value.Keys), Under(value, yes, m)) > Sum(Voices(s, value.Keys), yes) {
      LowPulls(cfg, s, value, m, yes);
    } else {
      HighPulls(cfg, s, value, m, yes);
    }
  }

  // ---- cutting a quorum down until its last voter decides

  /** A voter without whom `m` is missed all the same. */
  lemma Dispensable(w: map<AgentID, nat>, value: map<AgentID, nat>, yes: set<AgentID>, m: nat) returns (v: AgentID)
    requires yes <= w.Keys && yes != {} && !MedianOn(w, value, yes, m)
    ensures v in yes && !MedianOn(w, value, yes - {v}, m)
  {
    if 2 * Sum(w, Under(value, yes, m)) > Sum(w, yes) {
      v := DispensableLow(w, value, yes, m);
    } else {
      v := DispensableHigh(w, value, yes, m);
    }
  }

  lemma DispensableLow(w: map<AgentID, nat>, value: map<AgentID, nat>, yes: set<AgentID>, m: nat) returns (v: AgentID)
    requires yes <= w.Keys && yes != {} && 2 * Sum(w, Under(value, yes, m)) > Sum(w, yes)
    ensures v in yes && !MedianOn(w, value, yes - {v}, m)
  {
    var low := Under(value, yes, m);
    if low == yes {
      v :| v in yes;
      assert Under(value, yes - {v}, m) == yes - {v};
      SumSubset(w, yes - {v} - Over(value, yes - {v}, m), yes - {v});
    } else {
      v :| v in yes && v !in low;
      assert Under(value, yes - {v}, m) == low;
      SumRemove(w, yes, v);
    }
  }

  lemma DispensableHigh(w: map<AgentID, nat>, value: map<AgentID, nat>, yes: set<AgentID>, m: nat) returns (v: AgentID)
    requires yes <= w.Keys && yes != {} && 2 * Sum(w, yes - Over(value, yes, m)) <= Sum(w, yes)
    ensures v in yes && !MedianOn(w, value, yes - {v}, m)
  {
    var most := yes - Over(value, yes, m);
    if most == {} {
      v :| v in yes;
      assert yes - {v} - Over(value, yes - {v}, m) == {};
    } else {
      v :| v in most;
      assert yes - {v} - Over(value, yes - {v}, m) == most - {v};
      SumRemove(w, yes, v);
      SumRemove(w, most, v);
    }
  }

  /** Heard in some order, with voters who object if there are too few, the event is open until `last` approves. */
  ghost predicate DecidedBy(cfg: Config, s: Snapshot, yes: set<AgentID>, last: AgentID) {
    last in yes && (|yes| <= cfg.minParticipants || !Enough(cfg, s, yes - {last}))
  }

  lemma {:induction false} Cut(cfg: Config, s: Snapshot, value: map<AgentID, nat>, m: nat, yes: set<AgentID>)
    returns (cut: set<AgentID>, last: AgentID)
    requires cfg.threshold > 0.0 && s.activeWeight > 0 && Misses(cfg, s, value, m, yes)
    ensures cut <= yes && Misses(cfg, s, value, m, cut) && DecidedBy(cfg, s, cut, last)
    decreases |yes|
  {
    NothingIsShort(cfg, s.activeWeight);
    assert Counted(s, {}) == 0 by {
      assert {} * s.weights.Keys == {};
    }
    var v := Dispensable(Voices(s, value.Keys), value, yes, m);
    if DecidedBy(cfg, s, yes, v) {
      cut, last := yes, v;
    } else {
      cut, last := Cut(cfg, s, value, m, yes - {v});
    }
  }

  // ---- the ballots of such a quorum

  function Approving(ids: seq<AgentID>, value: map<AgentID, nat>): seq<Ballot>
    requires forall v :: v in ids ==> v in value
  {
    seq(|ids|, i requires 0 <= i < |ids| => Ballot(ids[i], true, value[ids[i]]))
  }

  function Objecting(ids: seq<AgentID>): seq<Ballot> {
    seq(|ids|, i requires 0 <= i < |ids| => Ballot(ids[i], false, 0))
  }

  lemma {:induction false} LongName(used: set<AgentID>) returns (n: nat)
    ensures forall v :: v in used ==> |v| < n
    decreases |used|
  {
    if used == {} {
      n := 0;
    } else {
      var v :| v in used;
      n := LongName(used - {v});
      n := if |v| < n then n else |v| + 1;
    }
  }

  /** There are always voters nobody has heard of. */
  lemma {:induction false} Strangers(used: set<AgentID>, k: nat) returns (ids: seq<AgentID>)
    ensures |ids| == k && Distinct(ids) && forall v :: v in ids ==> v !in used
    decreases k
  {
    if k == 0 {
      ids := [];
    } else {
      var n := LongName(used);
      var name: AgentID := seq(n, _ => 'x');
      var rest := Strangers(used + {name}, k - 1);
      ids := [name] + rest;
    }
  }

  /** Strangers who object, then the quorum with its last voter at the end. */
  ghost predicate Staged(cfg: Config, s: Snapshot, value: map<AgentID, nat>, yes: set<AgentID>, last: AgentID,
                         strangers: seq<AgentID>, ids: seq<AgentID>)
  {
    && yes <= value.Keys && DecidedBy(cfg, s, yes, last) && Enough(cfg, s, yes)
    && ids != [] && ids[|ids| - 1] == last && Lists(ids, yes)
    && Distinct(strangers) && (forall v :: v in strangers ==> v !in yes && v !in s.weights)
    && |strangers| == if cfg.minParticipants > |yes| then cfg.minParticipants - |yes| else 0
  }

  lemma Stage(cfg: Config, s: Snapshot, value: map<AgentID, nat>, yes: set<AgentID>, last: AgentID)
    returns (strangers: seq<AgentID>, ids: seq<AgentID>)
    requires yes <= value.Keys && DecidedBy(cfg, s, yes, last) && Enough(cfg, s, yes)
    ensures Staged(cfg, s, value, yes, last, strangers, ids)
  {
    var missing := if cfg.minParticipants > |yes| then cfg.minParticipants - |yes| else 0;
    strangers := Strangers(yes + s.weights.Keys, missing);
    var front := SomeListing(yes - {last});
    ListsAppend(front, yes - {last}, last);
    assert yes - {last} + {last} == yes;
    ids := front + [last];
  }

  ghost function Ballots(strangers: seq<AgentID>, ids: seq<AgentID>, value: map<AgentID, nat>): seq<Ballot>
    requires forall v :: v in ids ==> v in value
  {
    Objecting(strangers) + Approving(ids, value)
  }

  /** The voters who approve. */
  ghost function Ayes(bs: seq<Ballot>): set<AgentID> {
    set b | b in bs && b.vote :: b.voter
  }

  lemma AyesOf(bs: seq<Ballot>, v: AgentID)
    requires OneBallotEach(bs)
    ensures v in Ayes(bs) <==> v in VotesOf(bs) && VotesOf(bs)[v]
  {
    BallotCounts(bs);
    VotersOf(bs, v);
    if v in VotesOf(bs) {
      var i :| 0 <= i < |bs| && bs[i].voter == v;
      assert bs[i] in bs;
    }
  }

  ghost predicate ObjectorsUnseated(s: Snapshot, bs: seq<Ballot>) {
    forall b :: b in bs && !b.vote ==> b.voter !in s.weights
  }

  lemma NoNoes(s: Snapshot, bs: seq<Ballot>)
    requires OneBallotEach(bs) && ObjectorsUnseated(s, bs)
    ensures Side(s.weights, VotesOf(bs), true) == Ayes(bs) * s.weights.Keys && Side(s.weights, VotesOf(bs), false) == {}
  {
    BallotCounts(bs);
    forall v
      ensures v in VotesOf(bs) && !VotesOf(bs)[v] ==> v !in s.weights
      ensures v in Ayes(bs) <==> v in VotesOf(bs) && VotesOf(bs)[v]
    {
      AyesOf(bs, v);
      VotersOf(bs, v);
    }
  }

  lemma UnopposedNumbers(cfg: Config, active: nat, yes: nat, total: nat, voters: nat)
    requires active > 0 && Quorate(cfg, active, active)
    ensures Decide(cfg, active, yes, 0, total, voters) ==
            if voters >= cfg.minParticipants && Quorate(cfg, active, yes) then Approved else Undecided
  {
    assert active as real - cfg.threshold * active as real >= 0.0;
  }

  /** If those who object have no seat, the event is approved or open. */
  lemma UnopposedOutcome(cfg: Config, s: Snapshot, bs: seq<Ballot>)
    requires SnapshotOk(s) && s.activeWeight > 0 && Quorate(cfg, s.activeWeight, s.activeWeight)
    requires OneBallotEach(bs) && ObjectorsUnseated(s, bs)
    ensures Outcomes(cfg, s.weights, s.activeWeight, VotesOf(bs)) ==
            if |bs| >= cfg.minParticipants && Enough(cfg, s, Ayes(bs)) then Approved else Undecided
  {
    NoNoes(s, bs);
    TallyExact(s, VotesOf(bs));
    BallotCounts(bs);
    UnopposedNumbers(cfg, s.activeWeight, Counted(s, Ayes(bs)), CountedWeight(s.weights, VotesOf(bs)), |bs|);
  }

  lemma WithinActive(cfg: Config, s: Snapshot, yes: set<AgentID>)
    requires SnapshotOk(s) && Enough(cfg, s, yes)
    ensures Quorate(cfg, s.activeWeight, s.activeWeight)
  {
    SumSubset(s.weights, yes * s.weights.Keys, s.weights.Keys);
    MoreIsQuorate(cfg, s.activeWeight, Counted(s, yes), s.activeWeight);
  }

  lemma StagedBallots(cfg: Config, s: Snapshot, value: map<AgentID, nat>, yes: set<AgentID>, last: AgentID,
                      strangers: seq<AgentID>, ids: seq<AgentID>)
    requires Staged(cfg, s, value, yes, last, strangers, ids)
    ensures forall v :: v in ids <==> v in yes
    ensures var bs := Ballots(strangers, ids, value);
      && |bs| == |strangers| + |yes| && OneBallotEach(bs) && ObjectorsUnseated(s, bs)
      && bs[|bs| - 1] == Ballot(last, true, value[last])
      && forall b :: b in bs ==> (b.vote ==> b.voter in yes && b.value == value[b.voter])
  {
    SizeOfDistinct(ids, yes);
    assert forall v :: v in ids <==> v in set a | a in ids;
    var bs := Ballots(strangers, ids, value);
    forall i, j | 0 <= i < j < |bs|
      ensures bs[i].voter != bs[j].voter
    {
      assert i < |strangers| ==> strangers[i] in strangers;
      assert j >= |strangers| ==> ids[j - |strangers|] in ids;
    }
    forall b | b in bs
      ensures b.vote ==> b.voter in yes && b.value == value[b.voter]
      ensures !b.vote ==> b.voter !in s.weights
    {
      var i :| 0 <= i < |bs| && bs[i] == b;
      assert i < |strangers| ==> strangers[i] in strangers;
      assert i >= |strangers| ==> ids[i - |strangers|] in ids;
    }
  }

  lemma AyesBefore(cfg: Config, s: Snapshot, value: map<AgentID, nat>, yes: set<AgentID>, last: AgentID,
                   strangers: seq<AgentID>, ids: seq<AgentID>, n: nat)
    requires Staged(cfg, s, value, yes, last, strangers, ids) && n < |Ballots(strangers, ids, value)|
    ensures var pre := Ballots(strangers, ids, value)[..n];
      OneBallotEach(pre) && ObjectorsUnseated(s, pre) && Ayes(pre) <= yes - {last}
  {
    StagedBallots(cfg, s, value, yes, last, strangers, ids);
    var bs := Ballots(strangers, ids, value);
    var pre := bs[..n];
    forall b | b in pre
      ensures b in bs && b.voter != last
    {
      var i :| 0 <= i < |pre| && pre[i] == b;
      assert bs[i] == b && bs[|bs| - 1].voter == last;
    }
  }

  lemma AyesAll(cfg: Config, s: Snapshot, value: map<AgentID, nat>, yes: set<AgentID>, last: AgentID,
                strangers: seq<AgentID>, ids: seq<AgentID>)
    requires Staged(cfg, s, value, yes, last, strangers, ids)
    ensures Ayes(Ballots(strangers, ids, value)) == yes
  {
    StagedBallots(cfg, s, value, yes, last, strangers, ids);
    var bs := Ballots(strangers, ids, value);
    forall v | v in yes
      ensures v in Ayes(bs)
    {
      var i :| 0 <= i < |ids| && ids[i] == v;
      assert bs[|strangers| + i] == Ballot(v, true, value[v]);
      assert bs[|strangers| + i] in bs;
    }
  }

  /** One ballot before the last there are too few voters, or they are no quorum. */
  lemma StagedOpen(cfg: Config, s: Snapshot, value: map<AgentID, nat>, yes: set<AgentID>, last: AgentID,
                   strangers: seq<AgentID>, ids: seq<AgentID>, n: nat)
    requires SnapshotOk(s) && s.activeWeight > 0 && Staged(cfg, s, value, yes, last, strangers, ids)
    requires 0 < n < |Ballots(strangers, ids, value)|
    ensures Outcomes(cfg, s.weights, s.activeWeight, VotesOf(Ballots(strangers, ids, value)[..n])) == Undecided
  {
    var pre := Ballots(strangers, ids, value)[..n];
    StagedBallots(cfg, s, value, yes, last, strangers, ids);
    AyesBefore(cfg, s, value, yes, last, strangers, ids, n);
    WithinActive(cfg, s, yes);
    UnopposedOutcome(cfg, s, pre);
    CountedSubset(s, Ayes(pre), yes - {last});
    if Enough(cfg, s, Ayes(pre)) {
      MoreIsQuorate(cfg, s.activeWeight, Counted(s, Ayes(pre)), Counted(s, yes - {last}));
    }
  }

  /** A fresh node that hears these ballots approves, with exactly this quorum and its values. */
  lemma StagedRun(cfg: Config, e: EventID, s: Snapshot, value: map<AgentID, nat>, yes: set<AgentID>, last: AgentID,
                  strangers: seq<AgentID>, ids: seq<AgentID>)
    requires SnapshotOk(s) && s.activeWeight > 0 && cfg.maxRounds >= 1
    requires Staged(cfg, s, value, yes, last, strangers, ids)
    ensures var end := Run(cfg, Initial(None), Hears(e, s, Ballots(strangers, ids, value)));
      Fixed(end, e, s, value) && Approvers(end.records[e]) == yes
  {
    var bs := Ballots(strangers, ids, value);
    StagedBallots(cfg, s, value, yes, last, strangers, ids);
    forall n | 0 < n < |bs|
      ensures Outcomes(cfg, s.weights, s.activeWeight, VotesOf(bs[..n])) == Undecided
    {
      StagedOpen(cfg, s, value, yes, last, strangers, ids, n);
    }
    WithinActive(cfg, s, yes);
    AyesAll(cfg, s, value, yes, last, strangers, ids);
    UnopposedOutcome(cfg, s, bs);
    HeardAll(cfg, Initial(None), e, s, bs);
    RecordReports(Run(cfg, Initial(None), Hears(e, s, bs)).records[e], bs, yes, value);
  }

  lemma RecordReports(r: VoteRecord, bs: seq<Ballot>, yes: set<AgentID>, value: map<AgentID, nat>)
    requires r.votes == VotesOf(bs) && r.values == ValuesOf(bs) && OneBallotEach(bs) && Ayes(bs) == yes <= value.Keys
    requires forall b :: b in bs && b.vote ==> b.voter in value && b.value == value[b.voter]
    ensures Approvers(r) == yes && Reports(r, value)
  {
    BallotCounts(bs);
    forall v
      ensures v in Approvers(r) <==> v in yes
    {
      AyesOf(bs, v);
    }
    forall v | v in yes
      ensures ValueOf(r, v) == value[v]
    {
      var b :| b in bs && b.vote && b.voter == v;
    }
  }

  // ---- the theorems about runs

  lemma FixedSound(cfg: Config, st: State, actions: seq<Action>, e: EventID)
    requires Started(st) && ApprovedIn(Run(cfg, st, actions), e)
    ensures var r := Run(cfg, st, actions).records[e]; IsFinalValue(r, r.finalValue) && cfg.maxRounds >= 1
  {
    RunSound(cfg, st, actions);
    var r := Run(cfg, st, actions).records[e];
    assert Shaped(r, Run(cfg, st, actions).orderSeq) && Settled(cfg, r);
  }

  /** A quorum that misses `m` on paper gives a run that ends with another value, of some of these voters. */
  lemma MissedInRun(cfg: Config, e: EventID, s: Snapshot, value: map<AgentID, nat>, m: nat, yes: set<AgentID>)
    returns (actions: seq<Action>)
    requires SnapshotOk(s) && s.activeWeight > 0 && cfg.maxRounds >= 1 && cfg.threshold > 0.0
    requires Misses(cfg, s, value, m, yes)
    ensures var end := Run(cfg, Initial(None), actions);
      Fixed(end, e, s, value) && Approvers(end.records[e]) <= yes && end.records[e].finalValue != m
  {
    var cut, last := Cut(cfg, s, value, m, yes);
    var strangers, ids := Stage(cfg, s, value, cut, last);
    actions := Hears(e, s, Ballots(strangers, ids, value));
    StagedRun(cfg, e, s, value, cut, last, strangers, ids);
    FixedSound(cfg, Initial(None), actions, e);
    MedianOnRecord(Run(cfg, Initial(None), actions).records[e], s, value, m);
  }

  lemma ActiveIfApproved(cfg: Config, st: State, actions: seq<Action>, e: EventID, s: Snapshot)
    requires Started(st) && SnapshotOk(s) && ApprovedIn(Run(cfg, st, actions), e)
    requires Run(cfg, st, actions).records[e].bound == Some(s)
    ensures s.activeWeight > 0
  {
    RunSound(cfg, st, actions);
    var r := Run(cfg, st, actions).records[e];
    assert Settled(cfg, r) && Shaped(r, Run(cfg, st, actions).orderSeq);
    TallyExact(s, r.votes);
  }

  /** In any run of any node, if no quorum misses `m`, an approved event has the value `m`. */
  lemma SettledValue(cfg: Config, st: State, actions: seq<Action>, e: EventID, s: Snapshot,
                     value: map<AgentID, nat>, m: nat)
    requires Started(st) && SnapshotOk(s) && cfg.threshold > 0.0 && Fixed(Run(cfg, st, actions), e, s, value)
    requires !exists yes :: Misses(cfg, s, value, m, yes)
    ensures Run(cfg, st, actions).records[e].finalValue == m
  {
    var r := Run(cfg, st, actions).records[e];
    ActiveIfApproved(cfg, st, actions, e, s);
    ApproversQuorate(cfg, st, actions, e, s);
    NothingIsShort(cfg, s.activeWeight);
    assert Approvers(r) == {} ==> Approvers(r) * s.weights.Keys == {};
    assert !Misses(cfg, s, value, m, Approvers(r));
    MedianOnRecord(r, s, value, m);
    FixedSound(cfg, st, actions, e);
    OneFinalValue(r, m, r.finalValue);
  }

  /** Every node that approves the event fixes `m`. */
  ghost predicate AllFix(cfg: Config, e: EventID, s: Snapshot, value: map<AgentID, nat>, m: nat) {
    forall st, actions ::
      Started(st) && Fixed(Run(cfg, st, actions), e, s, value) ==> Run(cfg, st, actions).records[e].finalValue == m
  }

  /** For given values of those who may vote, every node in every run fixes `m` exactly when nothing pulls down and
  nothing pulls up, unless no event can be approved at all. */
  lemma SettlesExactly(cfg: Config, e: EventID, s: Snapshot, value: map<AgentID, nat>, m: nat)
    requires SnapshotOk(s) && cfg.threshold > 0.0
    ensures AllFix(cfg, e, s, value, m) <==>
            cfg.maxRounds == 0 || s.activeWeight == 0
            || !exists rest :: PullsDown(cfg, s, value, m, rest) || PullsUp(cfg, s, value, m, rest)
  {
    MissesIffPulled(cfg, s, value, m);
    if cfg.maxRounds == 0 || s.activeWeight == 0 {
      NoneApproved(cfg, e, s);
    } else if yes :| Misses(cfg, s, value, m, yes) {
      var actions := MissedInRun(cfg, e, s, value, m, yes);
    } else {
      forall st, actions | Started(st) && Fixed(Run(cfg, st, actions), e, s, value)
        ensures Run(cfg, st, actions).records[e].finalValue == m
      {
        SettledValue(cfg, st, actions, e, s, value, m);
      }
    }
  }

  lemma NoneApproved(cfg: Config, e: EventID, s: Snapshot)
    requires SnapshotOk(s) && (cfg.maxRounds == 0 || s.activeWeight == 0)
    ensures forall st, actions :: Started(st) && ApprovedIn(Run(cfg, st, actions), e) ==>
              Run(cfg, st, actions).records[e].bound != Some(s)
  {
    forall st, actions | Started(st) && ApprovedIn(Run(cfg, st, actions), e)
      ensures Run(cfg, st, actions).records[e].bound != Some(s)
    {
      FixedSound(cfg, st, actions, e);
      if Run(cfg, st, actions).records[e].bound == Some(s) {
        ActiveIfApproved(cfg, st, actions, e, s);
      }
    }
  }

  // ---- the same for a group and the range of its values

  ghost function Seats(s: Snapshot, group: set<AgentID>): set<AgentID> {
    group - Unseated(s, group)
  }

  lemma {:induction false} UnseatedCountNothing(s: Snapshot, group: set<AgentID>)
    requires Unseated(s, group) == group
    ensures Counted(s, group) == 0
    decreases |group|
  {
    if group == {} {
      assert group * s.weights.Keys == {};
    } else {
      var v :| v in group;
      assert Unseated(s, group - {v}) == group - {v};
      UnseatedCountNothing(s, group - {v});
      CountedRemove(s, group, v);
      assert !HasSeat(s, v);
    }
  }

  lemma SeatsCount(s: Snapshot, group: set<AgentID>)
    ensures Counted(s, Seats(s, group)) == Counted(s, group) && Unseated(s, Seats(s, group)) == {}
  {
    var none := Unseated(s, group);
    assert Unseated(s, none) == none;
    UnseatedCountNothing(s, none);
    CountedUnion(s, Seats(s, group), none);
    assert Seats(s, group) + none == group;
  }

  /** All seats outside the group, and strangers. */
  ghost function Against(s: Snapshot, group: set<AgentID>, strangers: set<AgentID>): set<AgentID> {
    Seats(s, s.weights.Keys - group) + strangers
  }

  lemma AgainstWeighs(s: Snapshot, group: set<AgentID>, strangers: set<AgentID>)
    requires strangers !! group && strangers !! s.weights.Keys
    ensures var against := Against(s, group, strangers);
      Counted(s, against) == Outside(s, group) && Unseated(s, against) == strangers && against !! group
  {
    var others := s.weights.Keys - group;
    SeatsCount(s, others);
    assert others * s.weights.Keys == others;
    assert Unseated(s, strangers) == strangers;
    UnseatedCountNothing(s, strangers);
    CountedUnion(s, Seats(s, others), strangers);
    assert Unseated(s, Seats(s, others) + strangers) == Unseated(s, Seats(s, others)) + Unseated(s, strangers);
  }

  /** The group says one, all others say two. */
  ghost function Opposed(group: set<AgentID>, yes: set<AgentID>): map<AgentID, nat> {
    map v | v in yes :: if v in group then 1 else 2
  }

  lemma OpposedMisses(cfg: Config, s: Snapshot, group: set<AgentID>, inside: set<AgentID>, against: set<AgentID>)
    requires inside <= group && against !! group && Unseated(s, inside) == {} && Enough(cfg, s, inside + against)
    requires Counted(s, inside) <= Counted(s, against) + |Unseated(s, against)|
    ensures Misses(cfg, s, Opposed(group, inside + against), 1, inside + against)
  {
    var yes := inside + against;
    assert Opposed(group, yes).Keys == yes;
    assert inside !! against;
    Outvoted(s, inside, against);
    OpposedSides(group, inside, against);
  }

  lemma Outvoted(s: Snapshot, inside: set<AgentID>, against: set<AgentID>)
    requires inside !! against && Unseated(s, inside) == {}
    requires Counted(s, inside) <= Counted(s, against) + |Unseated(s, against)|
    ensures var w := Voices(s, inside + against); 2 * Sum(w, inside) <= Sum(w, inside + against)
  {
    var yes := inside + against;
    VoicesSum(s, yes, inside);
    VoicesSum(s, yes, against);
    SumUnion(Voices(s, yes), inside, against);
  }

  lemma OpposedSides(group: set<AgentID>, inside: set<AgentID>, against: set<AgentID>)
    requires inside <= group && against !! group
    ensures var yes := inside + against; yes - Over(Opposed(group, yes), yes, 1) == inside
  {
  }

  lemma SidesEnough(cfg: Config, s: Snapshot, group: set<AgentID>, k: nat, rest: set<AgentID>,
                    inside: set<AgentID>, against: set<AgentID>)
    requires Sways(cfg, s, group, k, rest) && inside !! against
    requires Counted(s, inside) == Counted(s, rest) && Counted(s, against) == Outside(s, group)
    ensures Enough(cfg, s, inside + against) && Counted(s, inside) <= Counted(s, against) + k
  {
    CountedUnion(s, inside, against);
  }

  /** The seats of a swaying part, and all seats outside the group with strangers. */
  lemma SwaySides(cfg: Config, s: Snapshot, group: set<AgentID>, k: nat, rest: set<AgentID>)
    returns (inside: set<AgentID>, against: set<AgentID>)
    requires Sways(cfg, s, group, k, rest)
    ensures inside <= group && against !! group && Unseated(s, inside) == {} && |Unseated(s, against)| == k
    ensures Enough(cfg, s, inside + against) && Counted(s, inside) <= Counted(s, against) + k
  {
    var ids := Strangers(group + s.weights.Keys, k);
    var strangers := set v | v in ids;
    SizeOfDistinct(ids, strangers);
    inside, against := Seats(s, rest), Against(s, group, strangers);
    SeatsCount(s, rest);
    AgainstWeighs(s, group, strangers);
    SidesEnough(cfg, s, group, k, rest, inside, against);
  }

  /** In every run of every node the value lies in the range of the group's values, if at most `k` approvers are neither
  in the group nor seated. */
  ghost predicate Confines(cfg: Config, e: EventID, s: Snapshot, group: set<AgentID>, k: nat) {
    forall st, actions, lo: nat, hi: nat ::
      Started(st) && ReportsWithin(Run(cfg, st, actions), e, s, group, k, lo, hi) ==>
        lo <= Run(cfg, st, actions).records[e].finalValue <= hi
  }

  lemma OpposedReports(r: VoteRecord, s: Snapshot, group: set<AgentID>, inside: set<AgentID>, against: set<AgentID>)
    requires inside <= group && Reports(r, Opposed(group, inside + against))
    ensures |Unseated(s, Approvers(r) - group)| <= |Unseated(s, against)|
    ensures forall v :: v in Approvers(r) && v in group ==> ValueOf(r, v) == 1
  {
    SubsetSizes(Unseated(s, Approvers(r) - group), Unseated(s, against));
  }

  lemma SwayedRun(cfg: Config, e: EventID, s: Snapshot, group: set<AgentID>, k: nat, rest: set<AgentID>)
    requires SnapshotOk(s) && s.activeWeight > 0 && cfg.maxRounds >= 1 && cfg.threshold > 0.0
    requires Sways(cfg, s, group, k, rest)
    ensures !Confines(cfg, e, s, group, k)
  {
    var inside, against := SwaySides(cfg, s, group, k, rest);
    OpposedMisses(cfg, s, group, inside, against);
    var actions := MissedInRun(cfg, e, s, Opposed(group, inside + against), 1, inside + against);
    var end := Run(cfg, Initial(None), actions);
    OpposedReports(end.records[e], s, group, inside, against);
    assert ReportsWithin(end, e, s, group, k, 1, 1);
  }

  /** A group confines the value exactly when nothing sways it, unless no event can be approved at all. */
  lemma ConfinesExactly(cfg: Config, e: EventID, s: Snapshot, group: set<AgentID>, k: nat)
    requires SnapshotOk(s) && cfg.threshold > 0.0
    ensures Confines(cfg, e, s, group, k) <==>
            cfg.maxRounds == 0 || s.activeWeight == 0 || !exists rest :: Sways(cfg, s, group, k, rest)
  {
    if cfg.maxRounds == 0 || s.activeWeight == 0 {
      NoneApproved(cfg, e, s);
    } else if rest :| Sways(cfg, s, group, k, rest) {
      SwayedRun(cfg, e, s, group, k, rest);
    } else {
      forall st, actions, lo: nat, hi: nat
        | Started(st) && ReportsWithin(Run(cfg, st, actions), e, s, group, k, lo, hi)
        ensures lo <= Run(cfg, st, actions).records[e].finalValue <= hi
      {
        GroupBoundsValue(cfg, st, actions, e, s, group, k, lo, hi);
      }
    }
  }
}
