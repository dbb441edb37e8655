/** The blob fetch coordinator as interleaved steps of requesters and workers. Every step is one critical section, one
channel operation or one call to the network or store. */
module BlobSync {

  type Hash = string
  type Pid = nat

  datatype Policy = Policy(maxRetries: nat, initialBackoff: nat, maxBackoff: nat)
  datatype Ref = Ref(hash: Hash, policy: Policy)

  datatype FetchState = InFlight | Completed | Failed

  /** `closes` counts how often the done channel has been closed. */
  datatype Session = Session(ref: Ref, state: FetchState, attempts: nat, closes: nat)

  /** A requester that has seen the blob missing; that has reserved the hash and is about to enqueue; that found the
  queue full and is about to give the hash up. */
  datatype Requester = Checked(ref: Ref) | Enqueuing(ref: Ref, sid: nat) | Dropping(ref: Ref, sid: nat)

  /** A worker that has taken a request; that is in its retry loop; that is about to settle the session. */
  datatype Worker =
    | Taken(ref: Ref)
    | Running(ref: Ref, sid: nat, attempt: nat)
    | Finishing(ref: Ref, sid: nat, ok: bool)

  const CAPACITY: nat := 1024

  datatype State = State(
    inFlight: map<Hash, nat>, sessions: seq<Session>, queue: seq<Ref>,
    requesters: map<Pid, Requester>, workers: map<Pid, Worker>, local: set<Hash>)

  datatype Outcome = Stored | Refused | DeadlinePassed

  datatype Step =
    | Check(p: Pid, ref: Ref)
    | Reserve(p: Pid)
    | Enqueue(p: Pid)
    | Drop(p: Pid)
    | Take(w: Pid)
    | Begin(w: Pid)
    | Attempt(w: Pid, outcome: Outcome)
    | Finish(w: Pid)
    | Put(hash: Hash)
    | Forget(hash: Hash)

  function Init(): State {
    State(map[], [], [], map[], map[], {})
  }

  // ---- RequestFetch

  function AfterReserve(st: State, p: Pid): State
    requires p in st.requesters && st.requesters[p].Checked?
  {
    var ref := st.requesters[p].ref;
    if ref.hash in st.inFlight then st.(requesters := st.requesters - {p})
    else
      var sid := |st.sessions|;
      st.(inFlight := st.inFlight[ref.hash := sid],
          sessions := st.sessions + [Session(ref, InFlight, 0, 0)],
          requesters := st.requesters[p := Enqueuing(ref, sid)])
  }

  function AfterEnqueue(st: State, p: Pid): State
    requires p in st.requesters && st.requesters[p].Enqueuing?
  {
    var r := st.requesters[p];
    if |st.queue| < CAPACITY then st.(queue := st.queue + [r.ref], requesters := st.requesters - {p})
    else st.(requesters := st.requesters[p := Dropping(r.ref, r.sid)])
  }

  function AfterDrop(st: State, p: Pid): State
    requires p in st.requesters && st.requesters[p].Dropping?
  {
    st.(inFlight := st.inFlight - {st.requesters[p].ref.hash}, requesters := st.requesters - {p})
  }

  // ---- the worker loop

  function AfterTake(st: State, w: Pid): State
    requires w !in st.workers && st.queue != []
  {
    st.(workers := st.workers[w := Taken(st.queue[0])], queue := st.queue[1..])
  }

  function AfterBegin(st: State, w: Pid): State
    requires w in st.workers && st.workers[w].Taken?
  {
    var ref := st.workers[w].ref;
    if ref.hash in st.inFlight then st.(workers := st.workers[w := Running(ref, st.inFlight[ref.hash], 0)])
    else st.(workers := st.workers - {w})
  }

  /** One turn of the retry loop: out of retries or past the deadline, a failed try, or a stored blob. */
  function AfterAttempt(st: State, w: Pid, outcome: Outcome): State
    requires w in st.workers && st.workers[w].Running? && st.workers[w].sid < |st.sessions|
  {
    var Running(ref, sid, attempt) := st.workers[w];
    var s := st.sessions[sid];
    if attempt >= s.ref.policy.maxRetries || outcome.DeadlinePassed? then
      st.(workers := st.workers[w := Finishing(ref, sid, false)])
    else
      var st1 := st.(sessions := st.sessions[sid := s.(attempts := attempt + 1)]);
      if outcome.Stored? then
        st1.(workers := st.workers[w := Finishing(ref, sid, true)], local := st.local + {ref.hash})
      else
        st1.(workers := st.workers[w := Running(ref, sid, attempt + 1)])
  }

  function AfterFinish(st: State, w: Pid): State
    requires w in st.workers && st.workers[w].Finishing? && st.workers[w].sid < |st.sessions|
  {
    var Finishing(ref, sid, ok) := st.workers[w];
    var s := st.sessions[sid];
    st.(sessions := st.sessions[sid := s.(state := if ok then Completed else Failed, closes := s.closes + 1)],
        inFlight := st.inFlight - {ref.hash},
        workers := st.workers - {w})
  }

  /** A step that is not enabled changes nothing. */
  function Next(st: State, step: Step): State {
    match step
    case Check(p, ref) =>
      if p !in st.requesters && ref.hash !in st.local then st.(requesters := st.requesters[p := Checked(ref)]) else st
    case Reserve(p) => if p in st.requesters && st.requesters[p].Checked? then AfterReserve(st, p) else st
    case Enqueue(p) => if p in st.requesters && st.requesters[p].Enqueuing? then AfterEnqueue(st, p) else st
    case Drop(p) => if p in st.requesters && st.requesters[p].Dropping? then AfterDrop(st, p) else st
    case Take(w) => if w !in st.workers && st.queue != [] then AfterTake(st, w) else st
    case Begin(w) => if w in st.workers && st.workers[w].Taken? then AfterBegin(st, w) else st
    case Attempt(w, outcome) =>
      if w in st.workers && st.workers[w].Running? && st.workers[w].sid < |st.sessions|
      then AfterAttempt(st, w, outcome) else st
    case Finish(w) =>
      if w in st.workers && st.workers[w].Finishing? && st.workers[w].sid < |st.sessions|
      then AfterFinish(st, w) else st
    case Put(h) => st.(local := st.local + {h})
    case Forget(h) => st.(local := st.local - {h})
  }

  function Run(st: State, steps: seq<Step>): State {
    if steps == [] then st else Next(Run(st, steps[..|steps| - 1]), steps[|steps| - 1])
  }

  // ---- exactly one place per reserved hash

  datatype Place = AtRequester(p: Pid) | InQueue | AtWorker(w: Pid)

  ghost predicate RequesterHolds(st: State, p: Pid, h: Hash) {
    p in st.requesters && !st.requesters[p].Checked? && st.requesters[p].ref.hash == h
  }

  ghost predicate WorkerHolds(st: State, w: Pid, h: Hash) {
    w in st.workers && st.workers[w].ref.hash == h
  }

  ghost predicate QueueHolds(st: State, h: Hash) {
    exists i :: 0 <= i < |st.queue| && st.queue[i].hash == h
  }

  datatype Whereabouts = Nowhere | Only(place: Place)

  /** `h` is at the one place `at` names, or nowhere at all. */
  ghost predicate Found(st: State, h: Hash, at: Whereabouts) {
    && (forall p :: RequesterHolds(st, p, h) <==> at == Only(AtRequester(p)))
    && (forall w :: WorkerHolds(st, w, h) <==> at == Only(AtWorker(w)))
    && (QueueHolds(st, h) <==> at == Only(InQueue))
  }

  ghost function Lookup(place: map<Hash, Place>, h: Hash): Whereabouts {
    if h in place then Only(place[h]) else Nowhere
  }

  ghost predicate QueueDistinct(queue: seq<Ref>) {
    forall i, j :: 0 <= i < j < |queue| ==> queue[i].hash != queue[j].hash
  }

  /** Every reserved hash is at exactly one place, and no other hash is anywhere. */
  ghost predicate PlacedBy(st: State, place: map<Hash, Place>) {
    && place.Keys == st.inFlight.Keys
    && (forall h :: Found(st, h, Lookup(place, h)))
    && QueueDistinct(st.queue)
  }

  ghost predicate Placed(st: State) {
    exists place :: PlacedBy(st, place)
  }

  ghost predicate Elsewhere(st: State, st': State, h: Hash) {
    && (forall p, x :: x != h ==> (RequesterHolds(st', p, x) <==> RequesterHolds(st, p, x)))
    && (forall w, x :: x != h ==> (WorkerHolds(st', w, x) <==> WorkerHolds(st, w, x)))
    && (forall x :: x != h ==> (QueueHolds(st', x) <==> QueueHolds(st, x)))
  }

  /** A step that concerns one hash and leaves it in one place, reserved, or in none, unreserved. */
  lemma Moved(st: State, st': State, h: Hash, at: Whereabouts)
    requires Placed(st) && Elsewhere(st, st', h) && Found(st', h, at) && QueueDistinct(st'.queue)
    requires st'.inFlight.Keys == (if at.Nowhere? then st.inFlight.Keys - {h} else st.inFlight.Keys + {h})
    ensures Placed(st')
  {
    var place :| PlacedBy(st, place);
    var place' := if at.Nowhere? then place - {h} else place[h := at.place];
    forall x ensures Found(st', x, Lookup(place', x)) {
      if x == h {
        assert Lookup(place', h) == at;
      } else {
        assert Lookup(place', x) == Lookup(place, x);
        assert Found(st, x, Lookup(place, x));
      }
    }
    assert place'.Keys == st'.inFlight.Keys;
    assert PlacedBy(st', place');
  }

  /** What holds a hash is its one place. */
  lemma Where(st: State, h: Hash) returns (at: Whereabouts)
    requires Placed(st)
    ensures Found(st, h, at) && (at.Nowhere? <==> h !in st.inFlight) && QueueDistinct(st.queue)
  {
    var place :| PlacedBy(st, place);
    at := Lookup(place, h);
    assert h in place <==> h in place.Keys;
  }

  /** The session that a reserved hash is reserved for. */
  function SessionOf(st: State, h: Hash): Session
    requires h in st.inFlight && st.inFlight[h] < |st.sessions|
  {
    st.sessions[st.inFlight[h]]
  }

  ghost predicate Reserved(st: State, h: Hash) {
    && h in st.inFlight && st.inFlight[h] < |st.sessions|
    && SessionOf(st, h).ref.hash == h && SessionOf(st, h).state.InFlight?
  }

  ghost predicate RequesterOk(st: State, r: Requester) {
    !r.Checked? ==>
      Reserved(st, r.ref.hash) && st.inFlight[r.ref.hash] == r.sid && SessionOf(st, r.ref.hash).attempts == 0
  }

  ghost predicate QueuedOk(st: State, ref: Ref) {
    Reserved(st, ref.hash) && SessionOf(st, ref.hash).attempts == 0
  }

  /** Whoever works on a session works on the one its hash is reserved for, and has counted its tries. */
  ghost predicate WorkerOk(st: State, w: Worker) {
    && Reserved(st, w.ref.hash)
    && match w
       case Taken(_) => SessionOf(st, w.ref.hash).attempts == 0
       case Running(_, sid, attempt) =>
         st.inFlight[w.ref.hash] == sid && attempt == SessionOf(st, w.ref.hash).attempts
       case Finishing(_, sid, ok) =>
         st.inFlight[w.ref.hash] == sid && (ok ==> SessionOf(st, w.ref.hash).attempts > 0)
  }

  ghost predicate SessionOk(s: Session) {
    && s.attempts <= s.ref.policy.maxRetries
    && s.closes == (if s.state.InFlight? then 0 else 1)
    && (s.state.Completed? ==> s.attempts > 0)
  }

  ghost predicate HoldersOk(st: State) {
    && (forall i :: 0 <= i < |st.sessions| ==> SessionOk(st.sessions[i]))
    && (forall h :: h in st.inFlight ==> Reserved(st, h))
    && (forall p :: p in st.requesters ==> RequesterOk(st, st.requesters[p]))
    && (forall i :: 0 <= i < |st.queue| ==> QueuedOk(st, st.queue[i]))
    && (forall w :: w in st.workers ==> WorkerOk(st, st.workers[w]))
  }

  ghost predicate Inv(st: State) {
    HoldersOk(st) && Placed(st)
  }

  // ---- placement, step by step

  lemma PlaceReserve(st: State, p: Pid)
    requires p in st.requesters && st.requesters[p].Checked? && Placed(st)
    ensures Placed(AfterReserve(st, p))
  {
    var st' := AfterReserve(st, p);
    var h := st.requesters[p].ref.hash;
    var at := Where(st, h);
    Moved(st, st', h, if at.Nowhere? then Only(AtRequester(p)) else at);
  }

  lemma PlaceEnqueue(st: State, p: Pid)
    requires p in st.requesters && st.requesters[p].Enqueuing? && Placed(st)
    ensures Placed(AfterEnqueue(st, p))
  {
    var st' := AfterEnqueue(st, p);
    var h := st.requesters[p].ref.hash;
    var at := Where(st, h);
    assert RequesterHolds(st, p, h);
    if |st.queue| < CAPACITY {
      assert st'.queue[|st.queue|].hash == h;
      assert forall i :: 0 <= i < |st.queue| ==> st'.queue[i] == st.queue[i];
      Moved(st, st', h, Only(InQueue));
    } else {
      Moved(st, st', h, at);
    }
  }

  lemma PlaceDrop(st: State, p: Pid)
    requires p in st.requesters && st.requesters[p].Dropping? && Placed(st)
    ensures Placed(AfterDrop(st, p))
  {
    var h := st.requesters[p].ref.hash;
    var at := Where(st, h);
    assert RequesterHolds(st, p, h);
    Moved(st, AfterDrop(st, p), h, Nowhere);
  }

  lemma PlaceTake(st: State, w: Pid)
    requires w !in st.workers && st.queue != [] && Placed(st)
    ensures Placed(AfterTake(st, w))
  {
    var st' := AfterTake(st, w);
    var h := st.queue[0].hash;
    var at := Where(st, h);
    assert QueueHolds(st, h);
    forall x ensures QueueHolds(st', x) <==> QueueHolds(st, x) && x != h {
      if QueueHolds(st, x) && x != h {
        var i :| 0 <= i < |st.queue| && st.queue[i].hash == x;
        assert st'.queue[i - 1].hash == x;
      }
    }
    Moved(st, st', h, Only(AtWorker(w)));
  }

  /** A worker that moves on with the same request keeps its place. */
  lemma PlaceStays(st: State, st': State, w: Pid)
    requires w in st.workers && w in st'.workers && st'.workers[w].ref == st.workers[w].ref && Placed(st)
    requires st'.workers == st.workers[w := st'.workers[w]]
    requires st'.inFlight == st.inFlight && st'.queue == st.queue && st'.requesters == st.requesters
    ensures Placed(st')
  {
    var h := st.workers[w].ref.hash;
    var at := Where(st, h);
    assert WorkerHolds(st, w, h);
    Moved(st, st', h, at);
  }

  lemma PlaceFinish(st: State, w: Pid)
    requires w in st.workers && st.workers[w].Finishing? && st.workers[w].sid < |st.sessions| && Placed(st)
    ensures Placed(AfterFinish(st, w))
  {
    var h := st.workers[w].ref.hash;
    var at := Where(st, h);
    assert WorkerHolds(st, w, h);
    Moved(st, AfterFinish(st, w), h, Nowhere);
  }

  // ---- sessions, step by step

  /** The reservations of the hashes other than `h` are untouched. */
  ghost predicate Untouched(st: State, st': State, h: Hash) {
    forall x :: x != h && Reserved(st, x) ==>
      Reserved(st', x) && st'.inFlight[x] == st.inFlight[x] && SessionOf(st', x) == SessionOf(st, x)
  }

  /** What is said of requesters, workers and queued requests depends on the reservations alone. */
  lemma SameSessions(st: State, st': State)
    requires st'.inFlight == st.inFlight && st'.sessions == st.sessions
    ensures forall h :: Reserved(st, h) <==> Reserved(st', h)
    ensures forall r :: RequesterOk(st, r) <==> RequesterOk(st', r)
    ensures forall ref :: QueuedOk(st, ref) <==> QueuedOk(st', ref)
    ensures forall w :: WorkerOk(st, w) <==> WorkerOk(st', w)
  {
    assert forall h :: Reserved(st, h) ==> SessionOf(st', h) == SessionOf(st, h);
  }

  /** Those who hold another hash are not affected by a step on `h`. */
  lemma Others(st: State, st': State, h: Hash, at: Whereabouts)
    requires HoldersOk(st) && Found(st, h, at) && Untouched(st, st', h)
    ensures forall p :: p in st.requesters && at != Only(AtRequester(p)) ==> RequesterOk(st', st.requesters[p])
    ensures forall w :: w in st.workers && at != Only(AtWorker(w)) ==> WorkerOk(st', st.workers[w])
    ensures at != Only(InQueue) ==> forall i :: 0 <= i < |st.queue| ==> QueuedOk(st', st.queue[i])
  {
    forall p | p in st.requesters && at != Only(AtRequester(p)) ensures RequesterOk(st', st.requesters[p]) {
      assert !RequesterHolds(st, p, h);
      assert RequesterOk(st, st.requesters[p]);
    }
    forall w | w in st.workers && at != Only(AtWorker(w)) ensures WorkerOk(st', st.workers[w]) {
      assert !WorkerHolds(st, w, h);
      assert WorkerOk(st, st.workers[w]);
    }
    if at != Only(InQueue) {
      forall i | 0 <= i < |st.queue| ensures QueuedOk(st', st.queue[i]) {
        assert !QueueHolds(st, h);
        assert QueuedOk(st, st.queue[i]);
      }
    }
  }

  lemma CheckKeeps(st: State, p: Pid, ref: Ref)
    requires p !in st.requesters && Inv(st)
    ensures Inv(st.(requesters := st.requesters[p := Checked(ref)]))
  {
    var st' := st.(requesters := st.requesters[p := Checked(ref)]);
    var at := Where(st, ref.hash);
    Moved(st, st', ref.hash, at);
    SameSessions(st, st');
  }

  /** Blobs that other components put into the store or delete do not touch the fetches. */
  lemma StoreKeeps(st: State, local: set<Hash>)
    requires Inv(st)
    ensures Inv(st.(local := local))
  {
    var st' := st.(local := local);
    var at := Where(st, "");
    Moved(st, st', "", at);
    SameSessions(st, st');
  }

  lemma ReserveKeeps(st: State, p: Pid)
    requires p in st.requesters && st.requesters[p].Checked? && Inv(st)
    ensures Inv(AfterReserve(st, p))
  {
    PlaceReserve(st, p);
    var st' := AfterReserve(st, p);
    var h := st.requesters[p].ref.hash;
    if h in st.inFlight {
      SameSessions(st, st');
    } else {
      ReserveOpens(st, p);
    }
  }

  lemma ReserveOpens(st: State, p: Pid)
    requires p in st.requesters && st.requesters[p].Checked? && Inv(st) && st.requesters[p].ref.hash !in st.inFlight
    ensures HoldersOk(AfterReserve(st, p))
  {
    var st' := AfterReserve(st, p);
    var h := st.requesters[p].ref.hash;
    var at := Where(st, h);
    assert Reserved(st', h);
    assert Untouched(st, st', h);
    Others(st, st', h, at);
  }

  lemma EnqueueKeeps(st: State, p: Pid)
    requires p in st.requesters && st.requesters[p].Enqueuing? && Inv(st)
    ensures Inv(AfterEnqueue(st, p))
  {
    PlaceEnqueue(st, p);
    SameSessions(st, AfterEnqueue(st, p));
    assert RequesterOk(st, st.requesters[p]);
  }

  lemma DropKeeps(st: State, p: Pid)
    requires p in st.requesters && st.requesters[p].Dropping? && Inv(st)
    ensures Inv(AfterDrop(st, p))
  {
    PlaceDrop(st, p);
    var st' := AfterDrop(st, p);
    var h := st.requesters[p].ref.hash;
    var at := Where(st, h);
    assert RequesterHolds(st, p, h);
    assert Untouched(st, st', h);
    Others(st, st', h, at);
  }

  lemma TakeKeeps(st: State, w: Pid)
    requires w !in st.workers && st.queue != [] && Inv(st)
    ensures Inv(AfterTake(st, w))
  {
    PlaceTake(st, w);
    SameSessions(st, AfterTake(st, w));
    assert QueuedOk(st, st.queue[0]);
  }

  /** A worker always finds the session of the request it took. */
  lemma BeginKeeps(st: State, w: Pid)
    requires w in st.workers && st.workers[w].Taken? && Inv(st)
    ensures Inv(AfterBegin(st, w)) && w in AfterBegin(st, w).workers && AfterBegin(st, w).workers[w].Running?
  {
    var st' := AfterBegin(st, w);
    assert WorkerOk(st, st.workers[w]);
    PlaceStays(st, st', w);
    SameSessions(st, st');
  }

  lemma AttemptKeeps(st: State, w: Pid, outcome: Outcome)
    requires w in st.workers && st.workers[w].Running? && st.workers[w].sid < |st.sessions| && Inv(st)
    ensures Inv(AfterAttempt(st, w, outcome))
  {
    var st' := AfterAttempt(st, w, outcome);
    PlaceStays(st, st', w);
    if st'.sessions == st.sessions {
      TriesOver(st, w, outcome);
    } else {
      TryCounted(st, w, outcome);
    }
  }

  lemma TriesOver(st: State, w: Pid, outcome: Outcome)
    requires w in st.workers && st.workers[w].Running? && st.workers[w].sid < |st.sessions| && Inv(st)
    requires AfterAttempt(st, w, outcome).sessions == st.sessions
    ensures HoldersOk(AfterAttempt(st, w, outcome))
  {
    var st' := AfterAttempt(st, w, outcome);
    assert WorkerOk(st, st.workers[w]);
    assert st'.workers[w].Finishing? && !st'.workers[w].ok;
    SameSessions(st, st');
  }

  /** A change to the session of one reservation does not touch the others. */
  lemma OneSessionChanged(st: State, st': State, h: Hash)
    requires Reserved(st, h) && |st'.sessions| == |st.sessions|
    requires forall i :: 0 <= i < |st.sessions| && i != st.inFlight[h] ==> st'.sessions[i] == st.sessions[i]
    requires forall x :: x in st.inFlight && x != h ==> x in st'.inFlight && st'.inFlight[x] == st.inFlight[x]
    ensures Untouched(st, st', h)
  {
  }

  lemma TrySessions(st: State, w: Pid, outcome: Outcome)
    requires w in st.workers && st.workers[w].Running? && st.workers[w].sid < |st.sessions| && Inv(st)
    requires AfterAttempt(st, w, outcome).sessions != st.sessions
    ensures var st', h := AfterAttempt(st, w, outcome), st.workers[w].ref.hash;
      && Untouched(st, st', h) && Reserved(st', h) && WorkerOk(st', st'.workers[w])
      && forall i :: 0 <= i < |st'.sessions| ==> SessionOk(st'.sessions[i])
  {
    var st' := AfterAttempt(st, w, outcome);
    var h := st.workers[w].ref.hash;
    assert WorkerOk(st, st.workers[w]);
    OneSessionChanged(st, st', h);
    assert SessionOk(st.sessions[st.inFlight[h]]);
  }

  /** A step of the worker on `h` that changes its session only. */
  lemma WorkerMoved(st: State, st': State, w: Pid, h: Hash)
    requires Inv(st) && WorkerHolds(st, w, h) && w in st'.workers && st'.workers == st.workers[w := st'.workers[w]]
    requires st'.inFlight == st.inFlight && st'.queue == st.queue && st'.requesters == st.requesters
    requires Untouched(st, st', h) && Reserved(st', h) && WorkerOk(st', st'.workers[w])
    requires forall i :: 0 <= i < |st'.sessions| ==> SessionOk(st'.sessions[i])
    ensures HoldersOk(st')
  {
    var at := Where(st, h);
    Others(st, st', h, at);
  }

  lemma TryCounted(st: State, w: Pid, outcome: Outcome)
    requires w in st.workers && st.workers[w].Running? && st.workers[w].sid < |st.sessions| && Inv(st)
    requires AfterAttempt(st, w, outcome).sessions != st.sessions
    ensures HoldersOk(AfterAttempt(st, w, outcome))
  {
    TrySessions(st, w, outcome);
    WorkerMoved(st, AfterAttempt(st, w, outcome), w, st.workers[w].ref.hash);
  }

  lemma FinishKeeps(st: State, w: Pid)
    requires w in st.workers && st.workers[w].Finishing? && st.workers[w].sid < |st.sessions| && Inv(st)
    ensures Inv(AfterFinish(st, w))
  {
    PlaceFinish(st, w);
    FinishHolders(st, w);
  }

  lemma FinishHolders(st: State, w: Pid)
    requires w in st.workers && st.workers[w].Finishing? && st.workers[w].sid < |st.sessions| && Inv(st)
    ensures HoldersOk(AfterFinish(st, w))
  {
    var st' := AfterFinish(st, w);
    var h := st.workers[w].ref.hash;
    var at := Where(st, h);
    assert WorkerHolds(st, w, h);
    assert WorkerOk(st, st.workers[w]);
    assert SessionOk(st.sessions[st.workers[w].sid]);
    OneSessionChanged(st, st', h);
    Others(st, st', h, at);
  }

  /** Every step of every requester and worker keeps the invariant. */
  lemma StepKeeps(st: State, step: Step)
    requires Inv(st)
    ensures Inv(Next(st, step))
  {
    if Next(st, step) != st {
      match step
      case Check(p, ref) => CheckKeeps(st, p, ref);
      case Reserve(p) => ReserveKeeps(st, p);
      case Enqueue(p) => EnqueueKeeps(st, p);
      case Drop(p) => DropKeeps(st, p);
      case Take(w) => TakeKeeps(st, w);
      case Begin(w) => BeginKeeps(st, w);
      case Attempt(w, outcome) => AttemptKeeps(st, w, outcome);
      case Finish(w) => FinishKeeps(st, w);
      case Put(h) => StoreKeeps(st, st.local + {h});
      case Forget(h) => StoreKeeps(st, st.local - {h});
    }
  }

  lemma {:induction false} RunsKeep(st: State, steps: seq<Step>)
    requires Inv(st)
    ensures Inv(Run(st, steps))
  {
    if steps != [] {
      RunsKeep(st, steps[..|steps| - 1]);
      StepKeeps(Run(st, steps[..|steps| - 1]), steps[|steps| - 1]);
    }
  }

  lemma RunKeeps(steps: seq<Step>)
    ensures Inv(Run(Init(), steps))
  {
    assert PlacedBy(Init(), map[]);
    RunsKeep(Init(), steps);
  }

  // ---- what holds of every run

  /** At any point of any run a hash in flight is at exactly one place, and one not in flight is at none. In particular
  no two workers fetch the same hash. */
  lemma OneFetchPerHash(steps: seq<Step>, h: Hash) returns (at: Whereabouts)
    ensures Found(Run(Init(), steps), h, at) && (at.Nowhere? <==> h !in Run(Init(), steps).inFlight)
    ensures QueueDistinct(Run(Init(), steps).queue)
    ensures forall v, w :: WorkerHolds(Run(Init(), steps), v, h) && WorkerHolds(Run(Init(), steps), w, h) ==> v == w
  {
    RunKeeps(steps);
    at := Where(Run(Init(), steps), h);
  }

  /** A step changes only sessions in flight: a settled session stays as it is and is never closed again. */
  lemma StepKeepsSettled(st: State, step: Step, i: nat)
    requires Inv(st) && i < |st.sessions|
    ensures i < |Next(st, step).sessions| && Next(st, step).sessions[i].ref == st.sessions[i].ref
    ensures !st.sessions[i].state.InFlight? ==> Next(st, step).sessions[i] == st.sessions[i]
  {
    if (step.Attempt? || step.Finish?) && step.w in st.workers {
      assert WorkerOk(st, st.workers[step.w]);
    }
  }

  lemma {:induction false} SettledStays(st: State, more: seq<Step>, i: nat)
    requires Inv(st) && i < |st.sessions|
    ensures i < |Run(st, more).sessions| && Run(st, more).sessions[i].ref == st.sessions[i].ref
    ensures !st.sessions[i].state.InFlight? ==> Run(st, more).sessions[i] == st.sessions[i]
  {
    if more != [] {
      var before := more[..|more| - 1];
      SettledStays(st, before, i);
      RunsKeep(st, before);
      StepKeepsSettled(Run(st, before), more[|more| - 1], i);
    }
  }

  /** The done channel of a session is closed at most once in any run. One that has settled was closed once and is never
  closed again, however the run goes on. */
  lemma ClosedOnce(steps: seq<Step>, more: seq<Step>, i: nat)
    requires i < |Run(Init(), steps).sessions|
    ensures i < |Run(Run(Init(), steps), more).sessions| && Run(Run(Init(), steps), more).sessions[i].closes <= 1
    ensures !Run(Init(), steps).sessions[i].state.InFlight? ==>
              Run(Run(Init(), steps), more).sessions[i].closes == Run(Init(), steps).sessions[i].closes == 1
  {
    RunKeeps(steps);
    RunsKeep(Run(Init(), steps), more);
    SettledStays(Run(Init(), steps), more, i);
    assert SessionOk(Run(Init(), steps).sessions[i]) && SessionOk(Run(Run(Init(), steps), more).sessions[i]);
  }

  /** This step sends a fetch out on behalf of session `sid`. */
  predicate IsTry(st: State, step: Step, sid: nat) {
    && step.Attempt? && step.w in st.workers && st.workers[step.w].Running? && st.workers[step.w].sid == sid
    && sid < |st.sessions| && st.workers[step.w].attempt < st.sessions[sid].ref.policy.maxRetries
    && !step.outcome.DeadlinePassed?
  }

  function Tries(steps: seq<Step>, sid: nat): nat {
    if steps == [] then 0 else
      var before := steps[..|steps| - 1];
      Tries(before, sid) + if IsTry(Run(Init(), before), steps[|steps| - 1], sid) then 1 else 0
  }

  lemma TryRecorded(st: State, step: Step, sid: nat)
    requires Inv(st) && sid < |Next(st, step).sessions|
    ensures Next(st, step).sessions[sid].attempts ==
              (if sid < |st.sessions| then st.sessions[sid].attempts else 0) + (if IsTry(st, step, sid) then 1 else 0)
  {
    if (step.Attempt? || step.Finish?) && step.w in st.workers {
      assert WorkerOk(st, st.workers[step.w]);
    }
  }

  lemma SessionsGrow(st: State, step: Step)
    ensures |st.sessions| <= |Next(st, step).sessions|
  {
  }

  /** Over any run the number of fetches sent for a session is the number it records, at most its policy's retries. */
  lemma {:induction false} TriesBounded(steps: seq<Step>, sid: nat)
    ensures sid < |Run(Init(), steps).sessions| ==>
              var s := Run(Init(), steps).sessions[sid]; Tries(steps, sid) == s.attempts <= s.ref.policy.maxRetries
    ensures sid >= |Run(Init(), steps).sessions| ==> Tries(steps, sid) == 0
  {
    RunKeeps(steps);
    assert sid < |Run(Init(), steps).sessions| ==> SessionOk(Run(Init(), steps).sessions[sid]);
    if steps != [] {
      var before, step := steps[..|steps| - 1], steps[|steps| - 1];
      TriesBounded(before, sid);
      RunKeeps(before);
      SessionsGrow(Run(Init(), before), step);
      if sid < |Run(Init(), steps).sessions| {
        TryRecorded(Run(Init(), before), step, sid);
      }
    }
  }

  lemma CheckedByCheck(st: State, step: Step, p: Pid)
    requires p in Next(st, step).requesters && Next(st, step).requesters[p].Checked?
    ensures (p in st.requesters && st.requesters[p] == Next(st, step).requesters[p])
            || (step == Check(p, Next(st, step).requesters[p].ref) && step.ref.hash !in st.local)
  {
  }

  /** At step `k` requester `p` saw the blob missing, and it has done nothing since. */
  ghost predicate CheckedAt(steps: seq<Step>, p: Pid, ref: Ref, k: nat) {
    && k < |steps| && steps[k] == Check(p, ref) && ref.hash !in Run(Init(), steps[..k]).local
    && forall m :: k < m <= |steps| ==> HasChecked(Run(Init(), steps[..m]), p, ref)
  }

  ghost predicate HasChecked(st: State, p: Pid, ref: Ref) {
    p in st.requesters && st.requesters[p] == Checked(ref)
  }

  /** A requester about to reserve did see the blob missing, at an earlier point of the run. */
  lemma {:induction false} CheckedSawMissing(steps: seq<Step>, p: Pid, ref: Ref) returns (k: nat)
    requires HasChecked(Run(Init(), steps), p, ref)
    ensures CheckedAt(steps, p, ref, k)
  {
    k := |steps| - 1;
    var before := steps[..k];
    assert steps[..|steps|] == steps;
    CheckedByCheck(Run(Init(), before), steps[k], p);
    if !(steps[k] == Check(p, ref) && ref.hash !in Run(Init(), before).local) {
      k := CheckedSawMissing(before, p, ref);
      assert forall m :: 0 <= m <= |before| ==> before[..m] == steps[..m];
    }
  }

  /** A try of a worker on `h` that ends with the blob in the store. */
  ghost predicate Fetches(st: State, step: Step, h: Hash) {
    && step.Attempt? && step.outcome.Stored? && step.w in st.workers
    && st.workers[step.w].Running? && st.workers[step.w].ref.hash == h
    && IsTry(st, step, st.workers[step.w].sid)
  }

  /** The blob is stored, by a worker or by another component. */
  ghost predicate Stores(st: State, step: Step, h: Hash) {
    Fetches(st, step, h) || step == Put(h)
  }

  lemma LocalByStore(st: State, step: Step, h: Hash)
    ensures h in Next(st, step).local <==> (h in st.local && step != Forget(h)) || Stores(st, step, h)
  {
  }

  /** At step `j` the blob was stored, and nobody has deleted it since. */
  ghost predicate StoredAt(steps: seq<Step>, h: Hash, j: nat) {
    && j < |steps| && Stores(Run(Init(), steps[..j]), steps[j], h)
    && forall m :: j < m < |steps| ==> steps[m] != Forget(h)
  }

  /** A flag that is raised and lowered along a run: where it is down at `k` and up at the end, it was raised last at
  some point in between and not lowered since. */
  lemma {:induction false} RaisedBetween(up: seq<bool>, raises: seq<bool>, lowers: seq<bool>, k: nat) returns (j: nat)
    requires |up| == |raises| + 1 == |lowers| + 1 && k < |up| && !up[k] && up[|up| - 1]
    requires forall i :: 0 <= i < |raises| ==> (up[i + 1] <==> (up[i] && !lowers[i]) || raises[i])
    ensures k <= j < |raises| && raises[j] && forall m :: j < m < |raises| ==> !lowers[m] || raises[m]
  {
    var n := |raises|;
    j := n - 1;
    assert up[j + 1] <==> (up[j] && !lowers[j]) || raises[j];
    if !raises[j] {
      j := RaisedBetween(up[..n], raises[..n - 1], lowers[..n - 1], k);
      assert forall m :: j < m < n - 1 ==> lowers[..n - 1][m] == lowers[m] && raises[..n - 1][m] == raises[m];
    }
  }

  ghost predicate LocalAt(steps: seq<Step>, h: Hash, i: nat)
    requires i <= |steps|
  {
    h in Run(Init(), steps[..i]).local
  }

  ghost predicate StoresAt(steps: seq<Step>, h: Hash, i: nat)
    requires i < |steps|
  {
    Stores(Run(Init(), steps[..i]), steps[i], h)
  }

  lemma LocalFlows(steps: seq<Step>, h: Hash, i: nat)
    requires i < |steps|
    ensures LocalAt(steps, h, i + 1) <==> (LocalAt(steps, h, i) && steps[i] != Forget(h)) || StoresAt(steps, h, i)
  {
    assert steps[..i + 1][..i] == steps[..i];
    LocalByStore(Run(Init(), steps[..i]), steps[i], h);
  }

  lemma LastArrival(steps: seq<Step>, k: nat, h: Hash) returns (j: nat)
    requires k <= |steps| && !LocalAt(steps, h, k) && LocalAt(steps, h, |steps|)
    ensures k <= j < |steps| && StoresAt(steps, h, j) && forall m :: j < m < |steps| ==> steps[m] != Forget(h)
  {
    var n := |steps|;
    var up := seq(n + 1, i requires 0 <= i <= n => LocalAt(steps, h, i));
    var raises := seq(n, i requires 0 <= i < n => StoresAt(steps, h, i));
    var lowers := seq(n, i requires 0 <= i < n => steps[i] == Forget(h));
    forall i | 0 <= i < n
      ensures up[i + 1] <==> (up[i] && !lowers[i]) || raises[i]
    {
      LocalFlows(steps, h, i);
    }
    j := RaisedBetween(up, raises, lowers, k);
    forall m | j < m < n
      ensures steps[m] != Forget(h)
    {
      assert !lowers[m] || raises[m];
    }
  }

  /** A blob that is missing at one point and local at a later one was stored in between. */
  lemma ArrivedBetween(steps: seq<Step>, k: nat, h: Hash) returns (j: nat)
    requires k <= |steps| && h !in Run(Init(), steps[..k]).local && h in Run(Init(), steps).local
    ensures k <= j && StoredAt(steps, h, j)
  {
    assert steps[..|steps|] == steps;
    j := LastArrival(steps, k, h);
  }

  lemma {:induction false} StoredStays(steps: seq<Step>, h: Hash, j: nat)
    requires StoredAt(steps, h, j)
    ensures h in Run(Init(), steps).local
  {
    var last := |steps| - 1;
    var before := steps[..last];
    LocalByStore(Run(Init(), before), steps[last], h);
    if j < last {
      assert before[..j] == steps[..j];
      StoredStays(before, h, j);
    }
  }

  /** The next step of `p` opens a session for a blob that is already local. */
  ghost predicate OpensForLocal(st: State, p: Pid) {
    exists h :: h in st.local && h !in st.inFlight && h in Next(st, Reserve(p)).inFlight
  }

  /** A request is about to reserve, for a blob that nobody is fetching and that was stored after this request's check,
  with no deletion since. */
  ghost predicate Raced(steps: seq<Step>, p: Pid, ref: Ref, k: nat, j: nat) {
    && CheckedAt(steps, p, ref, k) && k < j && StoredAt(steps, ref.hash, j)
    && ref.hash !in Run(Init(), steps).inFlight
  }

  /** Exactly then is a local blob fetched again. */
  lemma RefetchIffRace(steps: seq<Step>, p: Pid)
    ensures OpensForLocal(Run(Init(), steps), p) <==> exists ref, k, j :: Raced(steps, p, ref, k, j)
  {
    var st := Run(Init(), steps);
    assert steps[..|steps|] == steps;
    if OpensForLocal(st, p) {
      var ref := st.requesters[p].ref;
      var k := CheckedSawMissing(steps, p, ref);
      var j := ArrivedBetween(steps, k, ref.hash);
      assert Raced(steps, p, ref, k, j);
    }
    if ref, k, j :| Raced(steps, p, ref, k, j) {
      StoredStays(steps, ref.hash, j);
      assert HasChecked(Run(Init(), steps[..|steps|]), p, ref);
      assert ref.hash in Next(st, Reserve(p)).inFlight;
    }
  }

  /** The local check and the reservation are two steps, so a blob that arrives in between is fetched again:
  a blob that is already local can be in flight. */
  lemma LocalBlobRefetched(ref: Ref) returns (steps: seq<Step>)
    requires ref.policy.maxRetries > 0
    ensures ref.hash in Run(Init(), steps).local && ref.hash in Run(Init(), steps).inFlight
  {
    var s0 := [Check(0, ref), Check(1, ref), Reserve(0), Enqueue(0), Take(0)];
    var st0 := State(map[ref.hash := 0], [Session(ref, InFlight, 0, 0)], [], map[1 := Checked(ref)],
                     map[0 := Taken(ref)], {});
    FirstFetchStarts(ref);
    steps := s0 + [Begin(0), Attempt(0, Stored), Finish(0), Reserve(1)];
    var s1, s2, s3 := s0 + [Begin(0)], s0 + [Begin(0), Attempt(0, Stored)],
                      s0 + [Begin(0), Attempt(0, Stored), Finish(0)];
    assert s1[..5] == s0 && s2[..6] == s1 && s3[..7] == s2 && steps[..8] == s3;
    assert Run(Init(), s1) == Next(st0, Begin(0));
    assert Run(Init(), s2).local == {ref.hash};
    assert Run(Init(), s3).inFlight == map[];
    assert 1 in Run(Init(), s3).requesters && Run(Init(), s3).requesters[1] == Checked(ref);
  }

  lemma FirstFetchStarts(ref: Ref)
    ensures Run(Init(), [Check(0, ref), Check(1, ref), Reserve(0), Enqueue(0), Take(0)]) ==
            State(map[ref.hash := 0], [Session(ref, InFlight, 0, 0)], [], map[1 := Checked(ref)],
                  map[0 := Taken(ref)], {})
  {
    var s := [Check(0, ref), Check(1, ref), Reserve(0), Enqueue(0), Take(0)];
    assert s[..1] == [Check(0, ref)] && s[..2][..1] == s[..1] && s[..3][..2] == s[..2] && s[..4][..3] == s[..3];
    assert s[..1][..0] == [];
    assert Run(Init(), s[..1]) == Next(Init(), s[0]);
    assert Run(Init(), s[..2]).requesters == map[0 := Checked(ref), 1 := Checked(ref)];
    assert Run(Init(), s[..3]).requesters == map[0 := Enqueuing(ref, 0), 1 := Checked(ref)];
    assert Run(Init(), s[..4]).requesters == map[1 := Checked(ref)];
    assert Run(Init(), s[..4]).queue == [ref];
  }

  /** It does not take a second fetch: a blob that another component stores in between is fetched as well. */
  lemma StoredBlobFetched(ref: Ref)
    ensures var st := Run(Init(), [Check(0, ref), Put(ref.hash), Reserve(0)]);
      ref.hash in st.local && ref.hash in st.inFlight && |st.sessions| == 1
  {
    var steps := [Check(0, ref), Put(ref.hash), Reserve(0)];
    assert steps[..2][..1] == steps[..1] && steps[..1][..0] == [];
    assert Run(Init(), steps[..1]).requesters == map[0 := Checked(ref)];
    assert Run(Init(), steps[..2]).local == {ref.hash};
    assert Run(Init(), steps) == Next(Run(Init(), steps[..2]), steps[2]);
  }

  // ---- backoff

  function Doubled(x: nat, n: nat): nat {
    if n == 0 then x else 2 * Doubled(x, n - 1)
  }

  /** The delay before the retry that follows try number `attempt`. */
  function Delay(p: Policy, attempt: nat): nat {
    if attempt == 0 || Doubled(p.initialBackoff, attempt) <= p.maxBackoff then Doubled(p.initialBackoff, attempt)
    else p.maxBackoff
  }

  lemma {:induction false} DoubledGrows(x: nat, m: nat, n: nat)
    requires m <= n
    ensures Doubled(x, m) <= Doubled(x, n)
    decreases n
  {
    if m < n {
      DoubledGrows(x, m, n - 1);
    }
  }

  /** The cap holds exactly when it is not the first try or the initial delay already respects it. */
  lemma DelayCapped(p: Policy, attempt: nat)
    ensures Delay(p, attempt) <= p.maxBackoff <==> attempt > 0 || p.initialBackoff <= p.maxBackoff
  {
    if attempt > 0 {
      DoubledGrows(p.initialBackoff, 1, attempt);
    }
  }

  /** The first delay is the initial one, and each later one is twice the one before or the cap, whichever is less.
  Under the cap the delays never shrink. */
  lemma DelayGrows(p: Policy, attempt: nat)
    ensures Delay(p, 0) == p.initialBackoff
    ensures Delay(p, attempt + 1) ==
            if 2 * Delay(p, attempt) <= p.maxBackoff then 2 * Delay(p, attempt) else p.maxBackoff
    ensures p.initialBackoff <= p.maxBackoff ==> Delay(p, attempt) <= Delay(p, attempt + 1)
  {
    DelayCapped(p, attempt);
    DoubledGrows(p.initialBackoff, attempt, attempt + 1);
  }

  method Backoff(p: Policy, attempt: nat) returns (backoff: nat)
    ensures backoff == Delay(p, attempt)
  {
    backoff := p.initialBackoff;
    var i := 0;
    while i < attempt
      invariant i <= attempt && backoff == Doubled(p.initialBackoff, i) && (i > 0 ==> backoff <= p.maxBackoff)
    {
      backoff := backoff * 2;
      if backoff > p.maxBackoff {
        backoff := p.maxBackoff;
        DoubledGrows(p.initialBackoff, i + 1, attempt);
        break;
      }
      i := i + 1;
    }
  }
}
