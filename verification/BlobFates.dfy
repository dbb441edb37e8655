/** What becomes of a fetch request: when its session completes, when it fails, and the order in which requests are
served. */
module BlobFates {
  import opened BlobSync

  // ---- tries and outcomes, counted along a run

  /** In this step the worker of session `sid` finds the blob. */
  predicate FindsBlob(st: State, step: Step, sid: nat) {
    IsTry(st, step, sid) && step.outcome.Stored?
  }

  /** In this step the worker of session `sid` finds its deadline passed. */
  predicate MeetsDeadline(st: State, step: Step, sid: nat) {
    && step.Attempt? && step.outcome.DeadlinePassed? && step.w in st.workers
    && st.workers[step.w].Running? && st.workers[step.w].sid == sid
  }

  function Finds(steps: seq<Step>, sid: nat): nat {
    if steps == [] then 0 else
      var before := steps[..|steps| - 1];
      Finds(before, sid) + if FindsBlob(Run(Init(), before), steps[|steps| - 1], sid) then 1 else 0
  }

  function Deadlines(steps: seq<Step>, sid: nat): nat {
    if steps == [] then 0 else
      var before := steps[..|steps| - 1];
      Deadlines(before, sid) + if MeetsDeadline(Run(Init(), before), steps[|steps| - 1], sid) then 1 else 0
  }

  // ---- what the counts say of a session

  ghost predicate RunsFor(st: State, w: Pid, sid: nat) {
    w in st.workers && st.workers[w].Running? && st.workers[w].sid == sid
  }

  ghost predicate EndsFor(st: State, w: Pid, sid: nat) {
    w in st.workers && st.workers[w].Finishing? && st.workers[w].sid == sid
  }

  /** Why a session ends: a try found the blob, or all tries are used up or a deadline has passed. */
  ghost predicate EndsWith(s: Session, ok: bool, finds: nat, deadlines: nat) {
    if ok then finds == 1 else finds == 0 && (s.attempts == s.ref.policy.maxRetries || deadlines > 0)
  }

  ghost predicate FateOk(st: State, sid: nat, finds: nat, deadlines: nat) {
    if sid >= |st.sessions| then finds == 0 && deadlines == 0
    else
      var s := st.sessions[sid];
      match s.state
      case Completed => EndsWith(s, true, finds, deadlines)
      case Failed => EndsWith(s, false, finds, deadlines)
      case InFlight =>
        && (forall w :: EndsFor(st, w, sid) ==> EndsWith(s, st.workers[w].ok, finds, deadlines))
        && (finds > 0 || deadlines > 0 ==> exists w :: EndsFor(st, w, sid))
  }

  /** Two workers on one session are one. */
  lemma SameWorker(st: State, v: Pid, w: Pid)
    requires Inv(st) && v in st.workers && w in st.workers && st.workers[v].ref.hash == st.workers[w].ref.hash
    ensures v == w
  {
    var at := Where(st, st.workers[v].ref.hash);
    assert WorkerHolds(st, v, st.workers[v].ref.hash) && WorkerHolds(st, w, st.workers[v].ref.hash);
  }

  lemma OwnsSession(st: State, w: Pid)
    requires Inv(st) && w in st.workers && !st.workers[w].Taken?
    ensures var sid := st.workers[w].sid;
      sid < |st.sessions| && st.sessions[sid].ref.hash == st.workers[w].ref.hash && st.sessions[sid].state.InFlight?
  {
    assert WorkerOk(st, st.workers[w]);
  }

  /** A worker that ends for a session is the only one that runs or ends for it. */
  lemma OneOwner(st: State, v: Pid, w: Pid, sid: nat)
    requires Inv(st) && (EndsFor(st, v, sid) || RunsFor(st, v, sid)) && (EndsFor(st, w, sid) || RunsFor(st, w, sid))
    ensures v == w
  {
    OwnsSession(st, v);
    OwnsSession(st, w);
    SameWorker(st, v, w);
  }

  lemma NoneEnds(st: State, w: Pid, sid: nat, finds: nat, deadlines: nat)
    requires Inv(st) && RunsFor(st, w, sid) && FateOk(st, sid, finds, deadlines)
    ensures finds == 0 && deadlines == 0 && forall v :: !EndsFor(st, v, sid)
  {
    OwnsSession(st, w);
    forall v
      ensures !EndsFor(st, v, sid)
    {
      if EndsFor(st, v, sid) {
        OneOwner(st, v, w, sid);
      }
    }
  }

  lemma AttemptFate(st: State, w: Pid, outcome: Outcome, sid: nat, finds: nat, deadlines: nat)
    requires Inv(st) && RunsFor(st, w, sid) && FateOk(st, sid, finds, deadlines)
    ensures finds == 0 && deadlines == 0
    ensures var step := Attempt(w, outcome);
      FateOk(Next(st, step), sid, if FindsBlob(st, step, sid) then 1 else 0,
             if MeetsDeadline(st, step, sid) then 1 else 0)
  {
    OwnsSession(st, w);
    NoneEnds(st, w, sid, finds, deadlines);
    assert WorkerOk(st, st.workers[w]);
    assert SessionOk(st.sessions[sid]);
    var st' := Next(st, Attempt(w, outcome));
    forall v
      ensures EndsFor(st', v, sid) ==> v == w
    {
      assert !EndsFor(st, v, sid);
    }
    assert st'.workers[w].Finishing? ==> EndsFor(st', w, sid);
  }

  lemma FinishFate(st: State, w: Pid, sid: nat, finds: nat, deadlines: nat)
    requires Inv(st) && EndsFor(st, w, sid) && FateOk(st, sid, finds, deadlines)
    ensures FateOk(Next(st, Finish(w)), sid, finds, deadlines)
  {
    OwnsSession(st, w);
  }

  /** The worker of the session does not move. */
  ghost predicate Aside(st: State, step: Step, sid: nat) {
    (step.Attempt? ==> !RunsFor(st, step.w, sid)) && (step.Finish? ==> !EndsFor(st, step.w, sid))
  }

  lemma SessionAside(st: State, step: Step, sid: nat)
    requires Aside(st, step, sid) && sid < |st.sessions|
    ensures sid < |Next(st, step).sessions| && Next(st, step).sessions[sid] == st.sessions[sid]
  {
  }

  lemma EndsAside(st: State, step: Step, sid: nat, w: Pid)
    requires Aside(st, step, sid)
    ensures EndsFor(Next(st, step), w, sid) <==> EndsFor(st, w, sid)
    ensures EndsFor(st, w, sid) ==> Next(st, step).workers[w] == st.workers[w]
  {
  }

  lemma NewSession(st: State, step: Step, sid: nat)
    requires sid >= |st.sessions| && sid < |Next(st, step).sessions|
    ensures Next(st, step).sessions[sid].state.InFlight?
  {
  }

  lemma NoneEndsYet(st: State, sid: nat)
    requires Inv(st) && sid >= |st.sessions|
    ensures forall w :: !EndsFor(st, w, sid)
  {
    forall w
      ensures !EndsFor(st, w, sid)
    {
      if EndsFor(st, w, sid) {
        OwnsSession(st, w);
      }
    }
  }

  lemma OtherFate(st: State, step: Step, sid: nat, finds: nat, deadlines: nat)
    requires Inv(st) && FateOk(st, sid, finds, deadlines) && Aside(st, step, sid)
    ensures FateOk(Next(st, step), sid, finds, deadlines)
  {
    var st' := Next(st, step);
    forall w
      ensures EndsFor(st', w, sid) <==> EndsFor(st, w, sid)
      ensures EndsFor(st, w, sid) ==> st'.workers[w] == st.workers[w]
    {
      EndsAside(st, step, sid, w);
    }
    if sid < |st.sessions| {
      SessionAside(st, step, sid);
    } else {
      NoneEndsYet(st, sid);
      if sid < |st'.sessions| {
        NewSession(st, step, sid);
      }
    }
  }

  lemma StepFate(st: State, step: Step, sid: nat, finds: nat, deadlines: nat)
    requires Inv(st) && FateOk(st, sid, finds, deadlines)
    ensures FateOk(Next(st, step), sid, finds + (if FindsBlob(st, step, sid) then 1 else 0),
                   deadlines + (if MeetsDeadline(st, step, sid) then 1 else 0))
  {
    if step.Attempt? && RunsFor(st, step.w, sid) {
      AttemptFate(st, step.w, step.outcome, sid, finds, deadlines);
    } else if step.Finish? && EndsFor(st, step.w, sid) {
      FinishFate(st, step.w, sid, finds, deadlines);
    } else {
      OtherFate(st, step, sid, finds, deadlines);
    }
  }

  lemma {:induction false} RunFate(steps: seq<Step>, sid: nat)
    ensures FateOk(Run(Init(), steps), sid, Finds(steps, sid), Deadlines(steps, sid))
  {
    if steps != [] {
      var before, step := steps[..|steps| - 1], steps[|steps| - 1];
      RunFate(before, sid);
      RunKeeps(before);
      StepFate(Run(Init(), before), step, sid, Finds(before, sid), Deadlines(before, sid));
    }
  }

  /** In every run a settled session has completed if and only if one of its tries found the blob, and then exactly one
  did; it has failed only after as many tries as its policy allows or at a passed deadline. */
  lemma SettledBecause(steps: seq<Step>, sid: nat)
    requires sid < |Run(Init(), steps).sessions| && !Run(Init(), steps).sessions[sid].state.InFlight?
    ensures var s := Run(Init(), steps).sessions[sid];
      && (s.state.Completed? <==> Finds(steps, sid) > 0) && Finds(steps, sid) <= 1
      && (s.state.Failed? ==> Tries(steps, sid) == s.ref.policy.maxRetries || Deadlines(steps, sid) > 0)
  {
    RunFate(steps, sid);
    TriesBounded(steps, sid);
  }

  // ---- the queue

  /** The request that this step leaves with the engine, rather than give it up. */
  function Accepts(st: State, step: Step): seq<Ref> {
    if step.Enqueue? && step.p in st.requesters && st.requesters[step.p].Enqueuing?
       && step.p !in Next(st, step).requesters
    then [st.requesters[step.p].ref] else []
  }

  /** The request that a worker takes up in this step. */
  function Serves(st: State, step: Step): seq<Ref> {
    if step.Take? && step.w !in st.workers && step.w in Next(st, step).workers then [Next(st, step).workers[step.w].ref]
    else []
  }

  function Accepted(steps: seq<Step>): seq<Ref> {
    if steps == [] then [] else
      var before := steps[..|steps| - 1];
      Accepted(before) + Accepts(Run(Init(), before), steps[|steps| - 1])
  }

  function Served(steps: seq<Step>): seq<Ref> {
    if steps == [] then [] else
      var before := steps[..|steps| - 1];
      Served(before) + Serves(Run(Init(), before), steps[|steps| - 1])
  }

  lemma QueueStep(st: State, step: Step)
    ensures st.queue + Accepts(st, step) == Serves(st, step) + Next(st, step).queue
  {
    match step
    case Enqueue(p) =>
    case Take(w) =>
    case _ =>
  }

  lemma Rejoined(a: seq<Ref>, b: seq<Ref>, c: seq<Ref>, d: seq<Ref>, e: seq<Ref>)
    requires b + c == d + e
    ensures a + b + c == a + d + e
  {
    assert a + b + c == a + (b + c) && a + d + e == a + (d + e);
  }

  /** Requests are served in the order in which they were accepted, and those that wait are the rest. */
  lemma {:induction false} ServedInOrder(steps: seq<Step>)
    ensures Accepted(steps) == Served(steps) + Run(Init(), steps).queue
  {
    if steps != [] {
      var before, step := steps[..|steps| - 1], steps[|steps| - 1];
      var st := Run(Init(), before);
      ServedInOrder(before);
      QueueStep(st, step);
      Rejoined(Served(before), st.queue, Accepts(st, step), Serves(st, step), Next(st, step).queue);
    }
  }

  lemma AcceptsIff(st: State, p: Pid)
    requires p in st.requesters && st.requesters[p].Enqueuing?
    ensures Accepts(st, Enqueue(p)) == [] <==> |st.queue| >= 1024
  {
  }

  lemma ServesIff(st: State, w: Pid)
    requires w !in st.workers
    ensures Serves(st, Take(w)) != [] <==> |st.queue| > 0
  {
  }

  /** How many requests wait. */
  function Waiting(steps: seq<Step>): int {
    |Accepted(steps)| - |Served(steps)|
  }

  /** A request is given up exactly when 1024 accepted ones wait. */
  lemma GivenUpIffFull(steps: seq<Step>, p: Pid)
    requires p in Run(Init(), steps).requesters && Run(Init(), steps).requesters[p].Enqueuing?
    ensures Accepts(Run(Init(), steps), Enqueue(p)) == [] <==> Waiting(steps) >= 1024
  {
    ServedInOrder(steps);
    AcceptsIff(Run(Init(), steps), p);
  }

  /** An idle worker takes a request up exactly when one waits. */
  lemma TakenUpIffWaiting(steps: seq<Step>, w: Pid)
    requires w !in Run(Init(), steps).workers
    ensures Serves(Run(Init(), steps), Take(w)) != [] <==> Waiting(steps) > 0
  {
    ServedInOrder(steps);
    ServesIff(Run(Init(), steps), w);
  }
}
