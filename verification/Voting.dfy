/** State and transitions of the virtual-voting round, as functions on values.

Ratios are exact reals: the rounding of `float64` at the very boundary of the threshold is not modelled. Tally sums
are `uint64` sums, taken modulo 2^64 as in the code; `TallyExact` says when that changes nothing. */
module Voting {
  import opened Collections
  import opened WeightedSets
  import opened WeightedMedian

  type AgentID = string
  type EventID = string

  /** An immutable validator set: the weight of every eligible key, and the total its owner reports. */
  datatype Snapshot = Snapshot(version: nat, weights: map<AgentID, nat>, activeWeight: nat)

  /** What the reported total promises: it covers the eligible seats and fits a `uint64`. */
  ghost predicate SnapshotOk(s: Snapshot) {
    Sum(s.weights, s.weights.Keys) <= s.activeWeight < U64
  }

  datatype Config = Config(threshold: real, maxRounds: nat, minParticipants: int)

  datatype Fingerprint = Fingerprint(reputation: nat, staked: nat)

  datatype VoteRecord = VoteRecord(
    bound: Option<Snapshot>, totalActiveWeight: nat, round: nat,
    votes: map<AgentID, bool>, values: map<AgentID, nat>,
    totalWeight: nat, yesWeight: nat, noWeight: nat,
    finalized: bool, finalVerdict: bool, finalValue: nat, finalOrder: nat, callbackFired: bool)

  type VoteStore = map<EventID, map<AgentID, bool>>

  datatype State = State(
    validatorSet: Option<Snapshot>, registry: map<AgentID, Fingerprint>,
    records: map<EventID, VoteRecord>, orderSeq: nat, persistence: Option<VoteStore>)

  datatype VoteError = NotEligible | NotInCommittee | AlreadyFinalized | RoundExhausted | DuplicateVote | EventNotFound

  datatype Outcome = Undecided | Approved | Rejected

  // ---- weights

  /** Reputation times stake over 10000, saturating at the largest `uint64`. */
  function RegistryWeight(fp: Fingerprint): nat {
    var w := fp.reputation * fp.staked / 10000;
    if w < U64 then w else U64 - 1
  }

  /** The registry weight is the largest 64-bit number of whole units in the share of the stake that the reputation, in
  basis points, stands for. */
  lemma RegistryWeightLargest(fp: Fingerprint, w: nat)
    ensures w <= RegistryWeight(fp) <==> w < U64 && 10000 * w <= fp.reputation * fp.staked
  {
    var p := fp.reputation * fp.staked;
    assert 10000 * (p / 10000) <= p < 10000 * (p / 10000) + 10000;
  }

  function CurrentWeights(set_: Option<Snapshot>, registry: map<AgentID, Fingerprint>): map<AgentID, nat> {
    match set_
    case Some(s) => s.weights
    case None => map a | a in registry :: RegistryWeight(registry[a])
  }

  /** The weights a record is tallied with: its bound snapshot, else whatever is current. */
  function WeightsFor(st: State, r: VoteRecord): map<AgentID, nat> {
    match r.bound
    case Some(s) => s.weights
    case None => CurrentWeights(st.validatorSet, st.registry)
  }

  // ---- tally

  ghost function Side(w: map<AgentID, nat>, votes: map<AgentID, bool>, vote: bool): set<AgentID> {
    set v | v in votes && v in w && votes[v] == vote
  }

  ghost function SideWeight(w: map<AgentID, nat>, votes: map<AgentID, bool>, vote: bool): nat {
    Wrap(Sum(w, Side(w, votes, vote)))
  }

  ghost function CountedWeight(w: map<AgentID, nat>, votes: map<AgentID, bool>): nat {
    Wrap(Sum(w, votes.Keys * w.Keys))
  }

  ghost function Tallied(w: map<AgentID, nat>, r: VoteRecord): VoteRecord {
    r.(totalWeight := CountedWeight(w, r.votes),
       yesWeight := SideWeight(w, r.votes, true),
       noWeight := SideWeight(w, r.votes, false))
  }

  /** The decision on tallied weights: approval at the quorum, rejection once the no side leaves less than a quorum,
  provided the active weight is known. */
  function Decide(cfg: Config, active: nat, yes: nat, no: nat, total: nat, voters: nat): Outcome {
    var d := if active == 0 then total else active;
    var quorum := cfg.threshold * d as real;
    if voters < cfg.minParticipants || d == 0 then Undecided
    else if yes as real >= quorum then Approved
    else if active > 0 && no as real > d as real - quorum then Rejected
    else Undecided
  }

  ghost function Outcomes(cfg: Config, w: map<AgentID, nat>, active: nat, votes: map<AgentID, bool>): Outcome {
    Decide(cfg, active, SideWeight(w, votes, true), SideWeight(w, votes, false), CountedWeight(w, votes), |votes|)
  }

  // ---- the value agreed on at approval

  function Approvers(r: VoteRecord): set<AgentID> {
    set v | v in r.votes && r.votes[v]
  }

  function ValueOf(r: VoteRecord, v: AgentID): nat {
    if v in r.values then r.values[v] else 0
  }

  /** Snapshot weight where there is one, else one. */
  function MedianWeight(r: VoteRecord, v: AgentID): (w: nat)
    ensures w > 0
  {
    if r.bound.Some? && v in r.bound.value.weights && r.bound.value.weights[v] > 0
    then r.bound.value.weights[v] else 1
  }

  ghost function ApproveValues(r: VoteRecord): map<AgentID, nat> {
    map v | v in Approvers(r) :: ValueOf(r, v)
  }

  ghost function ApproveWeights(r: VoteRecord): map<AgentID, nat> {
    map v | v in Approvers(r) :: MedianWeight(r, v)
  }

  ghost predicate IsFinalValue(r: VoteRecord, m: nat) {
    if Approvers(r) == {} then m == 0 else IsMedian(ApproveValues(r), ApproveWeights(r), m)
  }

  lemma FinalValueExists(r: VoteRecord)
    ensures exists m :: IsFinalValue(r, m)
  {
    if Approvers(r) == {} {
      assert IsFinalValue(r, 0);
    } else {
      var w := ApproveWeights(r);
      var v :| v in Approvers(r);
      SumRemove(w, w.Keys, v);
      MedianExists(ApproveValues(r), w);
      var m :| IsMedian(ApproveValues(r), w, m);
      assert IsFinalValue(r, m);
    }
  }

  ghost function FinalValue(r: VoteRecord): (m: nat)
    ensures IsFinalValue(r, m)
  {
    FinalValueExists(r);
    var m :| IsFinalValue(r, m);
    m
  }

  // ---- transitions

  function NewRecord(bound: Option<Snapshot>): VoteRecord {
    VoteRecord(bound, if bound.Some? then bound.value.activeWeight else 0, 1, map[], map[], 0, 0, 0,
               false, false, 0, 0, false)
  }

  function RecordOf(st: State, e: EventID): VoteRecord {
    if e in st.records then st.records[e] else NewRecord(st.validatorSet)
  }

  function PutVote(p: Option<VoteStore>, e: EventID, v: AgentID, vote: bool): Option<VoteStore> {
    match p
    case None => None
    case Some(s) => Some(s[e := (if e in s then s[e] else map[])[v := vote]])
  }

  function DeleteVotes(p: Option<VoteStore>, e: EventID): Option<VoteStore> {
    match p
    case None => None
    case Some(s) => Some(s - {e})
  }

  ghost function Finalized(r: VoteRecord, verdict: bool, order: nat): VoteRecord {
    r.(finalized := true, finalVerdict := verdict, finalValue := if verdict then FinalValue(r) else 0,
       finalOrder := order)
  }

  /** What a tally does once it has weighed a record: settle it and give it the next order number, or leave it open. */
  ghost function AfterOutcome(st: State, e: EventID, t: VoteRecord, outcome: Outcome, advance: bool): State {
    if outcome == Undecided then
      st.(records := st.records[e := if advance then t.(round := t.round + 1) else t])
    else
      st.(records := st.records[e := Finalized(t, outcome == Approved, st.orderSeq + 1)],
          orderSeq := st.orderSeq + 1,
          persistence := DeleteVotes(st.persistence, e))
  }

  ghost function AfterTally(cfg: Config, st: State, e: EventID, advance: bool): State
    requires e in st.records
  {
    var r := st.records[e];
    if r.finalized || r.round > cfg.maxRounds then st else
    var w := WeightsFor(st, r);
    AfterOutcome(st, e, Tallied(w, r), Outcomes(cfg, w, r.totalActiveWeight, r.votes), advance)
  }

  function RegisterError(cfg: Config, r: VoteRecord, v: AgentID): Option<VoteError> {
    if r.finalized then Some(AlreadyFinalized)
    else if r.round > cfg.maxRounds then Some(RoundExhausted)
    else if v in r.votes then Some(DuplicateVote)
    else None
  }

  function WithVote(r: VoteRecord, v: AgentID, vote: bool, value: nat): VoteRecord {
    r.(votes := r.votes[v := vote], values := r.values[v := value])
  }

  function Recorded(st: State, e: EventID, v: AgentID, vote: bool, value: nat): (st': State)
    ensures e in st'.records
  {
    st.(records := st.records[e := WithVote(RecordOf(st, e), v, vote, value)],
        persistence := PutVote(st.persistence, e, v, vote))
  }

  /** The part of a vote registration that runs under the lock. */
  ghost function AfterRegister(cfg: Config, st: State, e: EventID, v: AgentID, vote: bool, value: nat): State {
    var r := RecordOf(st, e);
    if RegisterError(cfg, r, v).Some? then st.(records := st.records[e := r])
    else AfterTally(cfg, Recorded(st, e, v, vote, value), e, false)
  }

  predicate CanMark(st: State, e: EventID) {
    e in st.records && st.records[e].finalized && !st.records[e].callbackFired
  }

  function AfterMark(st: State, e: EventID): State {
    if CanMark(st, e) then st.(records := st.records[e := st.records[e].(callbackFired := true)]) else st
  }

  /** One atomic step of a node. Eligibility is checked before the lock is taken, possibly against an older validator
  set, so `admitted` is left free. */
  datatype Action =
    | Register(event: EventID, voter: AgentID, vote: bool, value: nat, admitted: bool)
    | Tally(event: EventID)
    | SetValidatorSet(snapshot: Option<Snapshot>)
    | UpdateRegistry(registry: map<AgentID, Fingerprint>)
    | MarkCallback(event: EventID)

  ghost function Step(cfg: Config, st: State, a: Action): State {
    match a
    case Register(e, v, vote, value, admitted) =>
      if admitted then AfterRegister(cfg, st, e, v, vote, value) else st
    case Tally(e) => if e in st.records then AfterTally(cfg, st, e, true) else st
    case SetValidatorSet(s) => st.(validatorSet := s)
    case UpdateRegistry(reg) => st.(registry := reg)
    case MarkCallback(e) => AfterMark(st, e)
  }

  ghost function Run(cfg: Config, st: State, actions: seq<Action>): State {
    if actions == [] then st else Step(cfg, Run(cfg, st, actions[..|actions| - 1]), actions[|actions| - 1])
  }

  function Initial(p: Option<VoteStore>): State {
    State(None, map[], map[], 0, p)
  }
}
