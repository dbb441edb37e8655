/** Replay protection: the time checks of transaction verification and the cache of seen transaction IDs. The clock is
an argument of every call, in seconds. */
module TxReplay {
  import opened Int64

  const MAX_LIFETIME: int := 120
  const SKEW: int := 60
  const TTL: int := 600

  /** The two header timestamps, as parsed: any signed 64-bit values. */
  datatype Tx = Tx(createdAt: int, expiresAt: int)

  predicate Parsed(tx: Tx) {
    -I63 <= tx.createdAt < I63 && -I63 <= tx.expiresAt < I63
  }

  datatype Error = LifetimeExceeded | Expired | InFuture
  datatype Verdict = Accepted | Rejected(error: Error)

  /** The time checks, in 64-bit arithmetic and in the order they are made. */
  function CheckTimes(tx: Tx, now: int): Verdict {
    if Add(tx.expiresAt, -tx.createdAt) > MAX_LIFETIME then Rejected(LifetimeExceeded)
    else if now > Add(tx.expiresAt, SKEW) then Rejected(Expired)
    else if tx.createdAt > Add(now, SKEW) then Rejected(InFuture)
    else Accepted
  }

  predicate Clock(now: int) {
    0 <= now < I63 - SKEW
  }

  predicate Overflows(tx: Tx) {
    tx.expiresAt - tx.createdAt >= I63
  }

  /** The times at which a transaction is accepted are an interval; the lifetime bounds it exactly when the lifetime
  computation does not overflow. */
  lemma AcceptedTimes(tx: Tx, now: int)
    requires Parsed(tx) && Clock(now)
    ensures CheckTimes(tx, now).Accepted? <==>
              && (tx.expiresAt - tx.createdAt <= 120 || Overflows(tx))
              && tx.createdAt - 60 <= now <= tx.expiresAt + 60 < I63
  {
  }

  // ---- the cache

  /** `stored` is the set of keys with data in the persistent store, when there is one. */
  datatype Cache = Cache(local: map<string, int>, backed: bool, stored: set<string>)

  function Key(txID: string): string {
    "txid:" + txID
  }

  predicate Seen(c: Cache, txID: string) {
    Key(txID) in c.local || (c.backed && Key(txID) in c.stored)
  }

  function Marked(c: Cache, txID: string, now: int): Cache {
    if Key(txID) in c.local then c else
      c.(local := c.local[Key(txID) := now], stored := if c.backed then c.stored + {Key(txID)} else c.stored)
  }

  function Cleaned(c: Cache, now: int): Cache {
    c.(local := map k | k in c.local && c.local[k] >= now - TTL :: c.local[k])
  }

  class TxIDStore {
    var local: map<string, int>
    const backed: bool
    var stored: set<string>

    function View(): Cache
      reads this
    {
      Cache(local, backed, stored)
    }

    constructor (backed: bool, stored: set<string>)
      ensures View() == Cache(map[], backed, stored)
    {
      this.local, this.backed, this.stored := map[], backed, stored;
    }

    method MarkSeen(txID: string, now: int) returns (alreadySeen: bool)
      modifies this
      ensures alreadySeen == Seen(old(View()), txID)
      ensures View() == Marked(old(View()), txID, now) && Seen(View(), txID)
    {
      var key := "txid:" + txID;
      if key in local {
        return true;
      }
      if backed && key in stored {
        local := local[key := now];
        assert stored == stored + {key};
        return true;
      }
      local := local[key := now];
      if backed {
        stored := stored + {key};
      }
      return false;
    }

    method IsSeen(txID: string) returns (seen: bool)
      ensures seen == Seen(View(), txID)
    {
      var key := "txid:" + txID;
      if key in local {
        return true;
      }
      return backed && key in stored;
    }

    /** Entries are visited in any order and deleted on the way. */
    method Cleanup(now: int)
      modifies this`local
      ensures View() == Cleaned(old(View()), now)
    {
      var cutoff := now - TTL;
      var todo := local.Keys;
      while todo != {}
        invariant todo <= local.Keys <= old(local).Keys
        invariant forall k :: k in local ==> local[k] == old(local)[k]
        invariant forall k :: k in old(local) && k !in todo ==> (k in local <==> old(local)[k] >= cutoff)
        decreases |todo|
      {
        var k :| k in todo;
        if local[k] < cutoff {
          local := local - {k};
        }
        todo := todo - {k};
      }
    }
  }

  // ---- runs

  datatype Step = Mark(txID: string, now: int) | Clean(now: int)

  function After(c: Cache, step: Step): Cache {
    match step
    case Mark(txID, now) => Marked(c, txID, now)
    case Clean(now) => Cleaned(c, now)
  }

  function Run(c: Cache, steps: seq<Step>): Cache {
    if steps == [] then c else After(Run(c, steps[..|steps| - 1]), steps[|steps| - 1])
  }

  /** The clock of every step is in range and never goes back. */
  ghost predicate Timed(steps: seq<Step>) {
    && (forall i :: 0 <= i < |steps| ==> Clock(steps[i].now))
    && (forall i, j :: 0 <= i < j < |steps| ==> steps[i].now <= steps[j].now)
  }

  /** The transaction was accepted at or before `now`. */
  ghost predicate Verified(tx: Tx, now: int) {
    exists v :: Clock(v) && v <= now && CheckTimes(tx, v).Accepted?
  }

  /** The ID is marked only on behalf of `tx`, after its times were checked. */
  ghost predicate MarksOf(steps: seq<Step>, txID: string, tx: Tx) {
    forall i :: 0 <= i < |steps| && steps[i].Mark? && steps[i].txID == txID ==> Verified(tx, steps[i].now)
  }

  ghost predicate WasMarked(steps: seq<Step>, txID: string) {
    exists i :: 0 <= i < |steps| && steps[i].Mark? && steps[i].txID == txID
  }

  /** An entry is never older than the start of the window, and is evicted only when the window's start is a TTL past.
  */
  ghost predicate Held(c: Cache, txID: string, tx: Tx, marked: bool, clock: int) {
    && (Key(txID) in c.local ==> c.local[Key(txID)] >= tx.createdAt - SKEW)
    && (marked ==> Seen(c, txID) || clock - TTL > tx.createdAt - SKEW)
  }

  lemma StepHolds(c: Cache, step: Step, txID: string, tx: Tx, marked: bool, clock: int)
    requires Parsed(tx) && Clock(step.now) && clock <= step.now && Held(c, txID, tx, marked, clock)
    requires step.Mark? && step.txID == txID ==> Verified(tx, step.now)
    ensures Held(After(c, step), txID, tx, marked || (step.Mark? && step.txID == txID), step.now)
  {
    if step.Mark? {
      assert Key(step.txID) == Key(txID) ==> step.txID == txID by {
        assert Key(step.txID)[5..] == step.txID && Key(txID)[5..] == txID;
      }
      if step.txID == txID {
        var v :| Clock(v) && v <= step.now && CheckTimes(tx, v).Accepted?;
        AcceptedTimes(tx, v);
      }
    }
  }

  lemma {:induction false} RunHolds(c: Cache, steps: seq<Step>, txID: string, tx: Tx)
    requires Parsed(tx) && Timed(steps) && MarksOf(steps, txID, tx) && !Seen(c, txID)
    ensures Held(Run(c, steps), txID, tx, WasMarked(steps, txID), if steps == [] then 0 else steps[|steps| - 1].now)
  {
    if steps != [] {
      var before, step := steps[..|steps| - 1], steps[|steps| - 1];
      RunHolds(c, before, txID, tx);
      StepHolds(Run(c, before), step, txID, tx, WasMarked(before, txID),
                if before == [] then 0 else before[|before| - 1].now);
      assert WasMarked(steps, txID) <==> WasMarked(before, txID) || (step.Mark? && step.txID == txID) by {
        assert forall i :: 0 <= i < |before| ==> before[i] == steps[i];
        if WasMarked(steps, txID) && !(step.Mark? && step.txID == txID) {
          var i :| 0 <= i < |steps| && steps[i].Mark? && steps[i].txID == txID;
          assert before[i] == steps[i];
        }
      }
    }
  }

  /** An ID that was not seen is not reported as seen before it is marked, whatever else is. */
  lemma {:induction false} OnlyMarkedSeen(c: Cache, steps: seq<Step>, txID: string)
    requires !Seen(c, txID) && !WasMarked(steps, txID)
    ensures !Seen(Run(c, steps), txID)
  {
    if steps != [] {
      var before, step := steps[..|steps| - 1], steps[|steps| - 1];
      assert forall i :: 0 <= i < |before| ==> before[i] == steps[i];
      OnlyMarkedSeen(c, before, txID);
      if step.Mark? {
        assert Key(step.txID)[5..] == step.txID && Key(txID)[5..] == txID;
      }
    }
  }

  /** Whatever is marked and evicted in the meantime, the ID of a transaction that was accepted and marked is reported
  as seen at every later time at which the transaction is still accepted, with or without a persistent store. */
  ghost predicate ReplayCaught(tx: Tx) {
    forall c: Cache, steps: seq<Step>, txID: string, now: int ::
      Replays(c, steps, txID, tx, now) ==> Seen(Run(c, steps), txID)
  }

  /** After these steps a transaction that has been marked is accepted a second time. */
  ghost predicate Replays(c: Cache, steps: seq<Step>, txID: string, tx: Tx, now: int) {
    && Timed(steps) && MarksOf(steps, txID, tx) && WasMarked(steps, txID) && !Seen(c, txID)
    && Clock(now) && (forall i :: 0 <= i < |steps| ==> steps[i].now <= now) && CheckTimes(tx, now).Accepted?
  }

  lemma ReplaySeen(c: Cache, steps: seq<Step>, txID: string, tx: Tx, now: int)
    requires Parsed(tx) && !Overflows(tx) && Replays(c, steps, txID, tx, now)
    ensures Seen(Run(c, steps), txID)
  {
    RunHolds(c, steps, txID, tx);
    AcceptedTimes(tx, now);
  }

  /** Where the lifetime computation overflows, the window reaches from the epoch to the expiry time. */
  lemma OverflowSeen(c: Cache, steps: seq<Step>, txID: string, tx: Tx, now: int)
    requires Parsed(tx) && tx.expiresAt + SKEW <= TTL && Replays(c, steps, txID, tx, now)
    ensures Seen(Run(c, steps), txID)
  {
    AcceptedTimes(tx, now);
    EarlyKept(c, steps, txID);
  }

  lemma {:induction false} EarlyKept(c: Cache, steps: seq<Step>, txID: string)
    requires Timed(steps) && (forall i :: 0 <= i < |steps| ==> steps[i].now <= TTL) && !Seen(c, txID)
    ensures WasMarked(steps, txID) ==> Seen(Run(c, steps), txID)
    ensures Key(txID) in Run(c, steps).local ==> Run(c, steps).local[Key(txID)] >= 0
  {
    if steps != [] {
      var before, step := steps[..|steps| - 1], steps[|steps| - 1];
      EarlyKept(c, before, txID);
      if WasMarked(steps, txID) && !(step.Mark? && step.txID == txID) {
        var i :| 0 <= i < |steps| && steps[i].Mark? && steps[i].txID == txID;
        assert before[i] == steps[i];
      }
    }
  }

  /** A cleanup 601 seconds after the mark forgets a transaction whose lifetime computation overflows, and the
  transaction is accepted at that very moment. */
  lemma OverflowForgotten(tx: Tx, txID: string)
    requires Parsed(tx) && Overflows(tx) && TTL < tx.expiresAt + SKEW < I63
    ensures Replays(Cache(map[], false, {}), [Mark(txID, 0), Clean(TTL + 1)], txID, tx, TTL + 1)
    ensures !Seen(Run(Cache(map[], false, {}), [Mark(txID, 0), Clean(TTL + 1)]), txID)
  {
    var c, steps := Cache(map[], false, {}), [Mark(txID, 0), Clean(TTL + 1)];
    AcceptedTimes(tx, 0);
    AcceptedTimes(tx, TTL + 1);
    assert steps[0].Mark? && Verified(tx, 0);
    assert steps[..1] == [Mark(txID, 0)] && steps[..1][..0] == [];
    var c1 := Run(c, steps[..1]);
    assert c1 == Marked(Run(c, steps[..1][..0]), txID, 0);
    assert c1.local == map[Key(txID) := 0] && !c1.backed;
    assert Key(txID) !in Cleaned(c1, TTL + 1).local;
    assert Run(c, steps) == After(c1, steps[1]);
  }

  /** Replay protection holds exactly for the transactions whose lifetime computation does not overflow, for those that
  expire within the first minutes of the epoch and for those whose expiry check overflows, which are never accepted. */
  lemma ReplayCaughtExactly(tx: Tx)
    requires Parsed(tx)
    ensures ReplayCaught(tx) <==> !Overflows(tx) || tx.expiresAt + SKEW <= TTL || tx.expiresAt + SKEW >= I63
  {
    if !Overflows(tx) || tx.expiresAt + SKEW <= TTL || tx.expiresAt + SKEW >= I63 {
      forall c, steps, txID, now | Replays(c, steps, txID, tx, now) ensures Seen(Run(c, steps), txID) {
        AcceptedTimes(tx, now);
        if !Overflows(tx) {
          ReplaySeen(c, steps, txID, tx, now);
        } else {
          OverflowSeen(c, steps, txID, tx, now);
        }
      }
    } else {
      OverflowForgotten(tx, "");
    }
  }

  /** With a persistent store a marked ID stays seen whatever happens, also when the process restarts. */
  lemma {:induction false} StoredStaysSeen(c: Cache, steps: seq<Step>, txID: string)
    requires c.backed && (WasMarked(steps, txID) || Key(txID) in c.stored) && c.local.Keys <= c.stored
    ensures Run(c, steps).backed && Run(c, steps).local.Keys <= Run(c, steps).stored
    ensures Seen(Run(c, steps).(local := map[]), txID)
  {
    if steps != [] {
      var before, step := steps[..|steps| - 1], steps[|steps| - 1];
      if !(step.Mark? && step.txID == txID) {
        if WasMarked(steps, txID) {
          var i :| 0 <= i < |steps| && steps[i].Mark? && steps[i].txID == txID;
          assert before[i] == steps[i];
        }
        StoredStaysSeen(c, before, txID);
      } else {
        StoredCovers(c, before);
      }
    }
  }

  lemma {:induction false} StoredCovers(c: Cache, steps: seq<Step>)
    requires c.backed && c.local.Keys <= c.stored
    ensures Run(c, steps).backed && Run(c, steps).local.Keys <= Run(c, steps).stored
  {
    if steps != [] {
      StoredCovers(c, steps[..|steps| - 1]);
    }
  }
}
