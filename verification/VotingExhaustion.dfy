/** How long an event stays open to votes: one round for each explicit tally that leaves it undecided. */
module VotingExhaustion {
  import opened Collections
  import opened Voting
  import opened VotingRuns

  ghost predicate IsOpen(st: State, e: EventID) {
    e in st.records && !st.records[e].finalized
  }

  /** The calls of `TallyVotes` in a run that met the event open. */
  ghost function Tallies(cfg: Config, st: State, actions: seq<Action>, e: EventID): nat {
    if actions == [] then 0
    else
      var before, last := actions[..|actions| - 1], actions[|actions| - 1];
      Tallies(cfg, st, before, e) + if last == Tally(e) && IsOpen(Run(cfg, st, before), e) then 1 else 0
  }

  function Min(a: nat, b: nat): nat {
    if a < b then a else b
  }

  lemma TallyRound(cfg: Config, st: State, x: EventID, advance: bool, e: EventID)
    requires x in st.records && e in st.records
    ensures var st' := AfterTally(cfg, st, x, advance);
      && e in st'.records && (IsOpen(st', e) ==> IsOpen(st, e))
      && (IsOpen(st', e) ==> st'.records[e].round ==
                             st.records[e].round
                             + if x == e && advance && st.records[e].round <= cfg.maxRounds then 1 else 0)
  {
  }

  /** Only an explicit tally of an open event that is not exhausted moves the round, and by one. */
  lemma StepRound(cfg: Config, st: State, a: Action, e: EventID)
    requires IsOpen(Step(cfg, st, a), e)
    ensures e in st.records ==> IsOpen(st, e)
    ensures e in st.records ==>
              Step(cfg, st, a).records[e].round ==
              st.records[e].round + if a == Tally(e) && st.records[e].round <= cfg.maxRounds then 1 else 0
    ensures e !in st.records ==> Step(cfg, st, a).records[e].round == 1
  {
    match a
    case Register(x, v, vote, value, admitted) =>
      if admitted && RegisterError(cfg, RecordOf(st, x), v).None? {
        var mid := Recorded(st, x, v, vote, value);
        if e in mid.records {
          TallyRound(cfg, mid, x, false, e);
        }
      }
    case Tally(x) =>
      if x in st.records && e in st.records {
        TallyRound(cfg, st, x, true, e);
      }
    case _ =>
  }

  lemma StillUnknown(cfg: Config, st: State, a: Action, e: EventID)
    requires e !in Step(cfg, st, a).records
    ensures e !in st.records
  {
  }

  /** In every run, the round of an open event is one more than the number of explicit tallies that met it open, up to
  the limit; an event not heard of has met none. */
  lemma {:induction false} RoundCounts(cfg: Config, st: State, actions: seq<Action>, e: EventID)
    requires Started(st)
    ensures var end := Run(cfg, st, actions);
      && (IsOpen(end, e) ==> end.records[e].round == 1 + Min(cfg.maxRounds, Tallies(cfg, st, actions, e)))
      && (e !in end.records ==> Tallies(cfg, st, actions, e) == 0)
  {
    if actions != [] {
      var before, last := actions[..|actions| - 1], actions[|actions| - 1];
      RoundCounts(cfg, st, before, e);
      if e !in Run(cfg, st, actions).records {
        StillUnknown(cfg, Run(cfg, st, before), last, e);
      } else if IsOpen(Run(cfg, st, actions), e) {
        StepRound(cfg, Run(cfg, st, before), last, e);
      }
    }
  }

  /** A vote is refused for exhaustion if and only if the event is open and the allowed number of explicit tallies has
  left it so. */
  lemma ExhaustedExactly(cfg: Config, st: State, actions: seq<Action>, e: EventID, v: AgentID)
    requires Started(st)
    ensures var end := Run(cfg, st, actions);
      RegisterError(cfg, RecordOf(end, e), v) == Some(RoundExhausted) <==>
      (e in end.records ==> !end.records[e].finalized) && Tallies(cfg, st, actions, e) >= cfg.maxRounds
  {
    RoundCounts(cfg, st, actions, e);
  }
}
