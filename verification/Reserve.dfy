/** The replay reserve: balances per category in a lazily loaded write-through cache, and the settlements that feed it
and draw on it. The store, when there is one, reads a missing category as zero; writes may fail, reads do not. */
module Reserve {
  import opened FeeSplit
  import opened WeightedSets

  datatype Pool = Pool(balances: map<string, nat>, backed: bool, stored: map<string, nat>)

  function At(m: map<string, nat>, category: string): nat {
    if category in m then m[category] else 0
  }

  /** What the reserve holds: the plain map that the cache stands for. */
  function Funds(pool: Pool, category: string): nat {
    if category !in pool.balances && pool.backed then At(pool.stored, category) else At(pool.balances, category)
  }

  /** Amounts are 64-bit. */
  ghost predicate Sized(pool: Pool) {
    forall c :: Funds(pool, c) < U64 && At(pool.stored, c) < U64
  }

  /** The cache does not disagree with the store. It can, once a write has failed. */
  ghost predicate Saved(pool: Pool) {
    pool.backed ==> forall c :: c in pool.balances ==> pool.balances[c] == At(pool.stored, c)
  }

  function Loaded(pool: Pool, category: string): Pool {
    if !pool.backed || category in pool.balances then pool
    else pool.(balances := pool.balances[category := At(pool.stored, category)])
  }

  /** A balance set in memory and persisted. */
  function Written(pool: Pool, category: string, balance: nat): Pool {
    pool.(balances := pool.balances[category := balance],
          stored := if pool.backed then pool.stored[category := balance] else pool.stored)
  }

  function Accrued(pool: Pool, category: string, amount: nat): Pool {
    Written(Loaded(pool, category), category, Wrap(Funds(pool, category) + amount))
  }

  function DrawAmount(pool: Pool, category: string, amount: nat): nat {
    if amount > Funds(pool, category) then Funds(pool, category) else amount
  }

  function Drawn(pool: Pool, category: string, amount: nat): Pool {
    Written(Loaded(pool, category), category, Funds(pool, category) - DrawAmount(pool, category, amount))
  }

  /** An accrual whose write failed: it is in memory only. */
  function Unsaved(pool: Pool, category: string, amount: nat): Pool {
    var loaded := Loaded(pool, category);
    loaded.(balances := loaded.balances[category := Wrap(Funds(pool, category) + amount)])
  }

  /** The process restarts on the same store and preloads some categories. */
  function Restarted(pool: Pool, warm: set<string>): Pool {
    Pool(map c | c in warm && pool.backed :: At(pool.stored, c), pool.backed, pool.stored)
  }

  lemma WrittenFunds(pool: Pool, category: string, balance: nat)
    ensures forall c :: Funds(Written(Loaded(pool, category), category, balance), c) ==
                        if c == category then balance else Funds(pool, c)
    ensures Saved(pool) ==> Saved(Written(Loaded(pool, category), category, balance))
    ensures Sized(pool) && balance < U64 ==> Sized(Written(Loaded(pool, category), category, balance))
  {
    var pool' := Written(Loaded(pool, category), category, balance);
    assert forall c :: Funds(pool', c) == if c == category then balance else Funds(pool, c);
  }

  /** The cache behaves as the plain map of funds: an accrual adds to one category, a draw takes from one category no
  more than it holds, loading changes nothing, and neither does a restart on a store that has everything. */
  lemma AccruedFunds(pool: Pool, category: string, amount: nat)
    ensures forall c :: Funds(Accrued(pool, category, amount), c) ==
                        if c == category then Wrap(Funds(pool, c) + amount) else Funds(pool, c)
    ensures Saved(pool) ==> Saved(Accrued(pool, category, amount))
    ensures Sized(pool) ==> Sized(Accrued(pool, category, amount))
  {
    WrittenFunds(pool, category, Wrap(Funds(pool, category) + amount));
  }

  lemma DrawnFunds(pool: Pool, category: string, amount: nat)
    ensures forall c :: Funds(pool, c)
                     == Funds(Drawn(pool, category, amount), c)
                        + if c == category then DrawAmount(pool, c, amount) else 0
    ensures Saved(pool) ==> Saved(Drawn(pool, category, amount))
    ensures Sized(pool) ==> Sized(Drawn(pool, category, amount))
  {
    WrittenFunds(pool, category, Funds(pool, category) - DrawAmount(pool, category, amount));
  }

  lemma LoadedFunds(pool: Pool, category: string)
    ensures forall c :: Funds(Loaded(pool, category), c) == Funds(pool, c)
    ensures Saved(pool) ==> Saved(Loaded(pool, category))
    ensures Sized(pool) ==> Sized(Loaded(pool, category))
  {
    assert forall c :: Funds(Loaded(pool, category), c) == Funds(pool, c);
  }

  /** A failed accrual changes the funds as a successful one does, and the store not at all. */
  lemma UnsavedFunds(pool: Pool, category: string, amount: nat)
    ensures forall c :: Funds(Unsaved(pool, category, amount), c) ==
                        if c == category then Wrap(Funds(pool, c) + amount) else Funds(pool, c)
    ensures Unsaved(pool, category, amount).stored == pool.stored
    ensures Sized(pool) ==> Sized(Unsaved(pool, category, amount))
  {
    var pool' := Unsaved(pool, category, amount);
    assert forall c :: Funds(pool', c) == if c == category then Wrap(Funds(pool, c) + amount) else Funds(pool, c);
  }

  /** After a restart the funds are what the store has. */
  lemma RestartedFunds(pool: Pool, warm: set<string>)
    requires pool.backed
    ensures forall c :: Funds(Restarted(pool, warm), c) == At(pool.stored, c)
    ensures Saved(Restarted(pool, warm)) && (Sized(pool) ==> Sized(Restarted(pool, warm)))
    ensures Saved(pool) ==> forall c :: Funds(Restarted(pool, warm), c) == Funds(pool, c)
  {
    assert forall c :: Funds(Restarted(pool, warm), c) == At(pool.stored, c);
    assert Saved(pool) ==> forall c :: Funds(pool, c) == At(pool.stored, c);
  }

  class ReplayReserve {
    var balances: map<string, nat>
    const backed: bool
    var stored: map<string, nat>

    function View(): Pool
      reads this
    {
      Pool(balances, backed, stored)
    }

    constructor (backed: bool, stored: map<string, nat>)
      ensures View() == Pool(map[], backed, stored)
    {
      this.balances, this.backed, this.stored := map[], backed, stored;
    }

    constructor LoadFromStore(backed: bool, stored: map<string, nat>, categories: seq<string>)
      ensures View() == Restarted(Pool(map[], backed, stored), set c | c in categories)
    {
      this.balances, this.backed, this.stored := map[], backed, stored;
      new;
      if backed {
        for i := 0 to |categories|
          invariant View() == Restarted(Pool(map[], backed, stored), set c | c in categories[..i])
        {
          balances := balances[categories[i] := At(stored, categories[i])];
          assert categories[..i + 1] == categories[..i] + [categories[i]];
        }
        assert categories[..|categories|] == categories;
      }
    }

    method LazyLoad(category: string)
      modifies this`balances
      ensures View() == Loaded(old(View()), category)
    {
      if !backed || category in balances {
        return;
      }
      balances := balances[category := At(stored, category)];
    }

    method Persist(category: string, fails: bool) returns (ok: bool)
      requires category in balances
      modifies this`stored
      ensures ok <==> !backed || !fails
      ensures View() == if ok then Written(old(View()), category, balances[category]) else old(View())
    {
      ok := true;
      if backed {
        if fails {
          return false;
        }
        stored := stored[category := balances[category]];
      }
      assert balances == balances[category := balances[category]];
    }

    method Accrue(category: string, amount: nat, fails: bool) returns (ok: bool)
      modifies this
      ensures ok <==> !backed || !fails
      ensures View() == if ok then Accrued(old(View()), category, amount) else Unsaved(old(View()), category, amount)
    {
      LazyLoad(category);
      balances := balances[category := Wrap(At(balances, category) + amount)];
      ok := Persist(category, fails);
    }

    /** Loads the balance and takes off in memory what can be taken. */
    method Deduct(category: string, amount: nat) returns (drawn: nat, bal: nat)
      modifies this`balances
      ensures bal == Funds(old(View()), category) && drawn == DrawAmount(old(View()), category, amount)
      ensures balances == Loaded(old(View()), category).balances[category := bal - drawn]
    {
      LazyLoad(category);
      bal := At(balances, category);
      drawn := amount;
      if drawn > bal {
        drawn := bal;
      }
      balances := balances[category := bal - drawn];
    }

    /** A draw whose write fails is undone. */
    method Draw(category: string, amount: nat, fails: bool) returns (drawn: nat, ok: bool)
      modifies this
      ensures ok <==> !backed || !fails
      ensures ok ==> View() == Drawn(old(View()), category, amount)
      ensures ok ==> drawn == DrawAmount(old(View()), category, amount)
      ensures !ok ==> View() == Loaded(old(View()), category) && drawn == 0
    {
      ghost var was := View();
      var bal: nat;
      drawn, bal := Deduct(category, amount);
      ok := Persist(category, fails);
      if !ok {
        balances := balances[category := bal];
        drawn := 0;
        assert balances == Loaded(was, category).balances;
      }
    }

    method Balance(category: string) returns (balance: nat)
      modifies this
      ensures balance == Funds(old(View()), category) && View() == Loaded(old(View()), category)
    {
      if category in balances {
        return balances[category];
      }
      LazyLoad(category);
      return At(balances, category);
    }
  }

  // ---- settlement

  function BasePayout(fee: nat, cfg: Config): nat
    requires ConfigOk(cfg)
  {
    Portion(fee, cfg.replayExecutorShare)
  }

  /** What an executor lacks to the minimum. */
  function Shortfall(fee: nat, cfg: Config): nat
    requires ConfigOk(cfg)
  {
    if BasePayout(fee, cfg) >= cfg.minReplayPayout then 0 else cfg.minReplayPayout - BasePayout(fee, cfg)
  }

  /** A failed deposit stays in memory, a failed draw is undone. */
  function AfterDeposit(pool: Pool, category: string, amount: nat, failing: bool): Pool {
    if failing then Unsaved(pool, category, amount) else Accrued(pool, category, amount)
  }

  function AfterDraw(pool: Pool, category: string, amount: nat, failing: bool): Pool {
    if failing then Loaded(pool, category) else Drawn(pool, category, amount)
  }

  function ToppedUp(pool: Pool, fee: nat, category: string, cfg: Config, failing: bool): Pool
    requires ConfigOk(cfg)
  {
    if Shortfall(fee, cfg) == 0 then pool else AfterDraw(pool, category, Shortfall(fee, cfg), failing)
  }

  function Settled(pool: Pool, fee: nat, category: string, replay: bool, cfg: Config, failing: bool): Pool
    requires ConfigOk(cfg) && fee < U64
  {
    var reserve := ComputeFeeSplit(fee, replay, cfg).reserve;
    if !replay && reserve > 0 then AfterDeposit(pool, category, reserve, failing) else pool
  }

  /** The executor gets its base share and what is drawn, never more than the larger of the base and the minimum, and
  the minimum whenever the reserve can cover the shortfall; the reserve gives exactly what is drawn. A failed write
  draws nothing. */
  method ComputeReplayExecutorPayout(fee: nat, reserve: ReplayReserve, category: string, cfg: Config, fails: bool)
    returns (payout: nat, draw: nat)
    requires ConfigOk(cfg) && fee < U64
    modifies reserve
    ensures payout == BasePayout(fee, cfg) + draw < U64
    ensures payout == ComputeFeeSplit(fee, true, cfg).executor + draw
    ensures BasePayout(fee, cfg) >= cfg.minReplayPayout ==> draw == 0
    ensures BasePayout(fee, cfg) < cfg.minReplayPayout ==> payout <= cfg.minReplayPayout
    ensures forall c :: Funds(old(reserve.View()), c) == Funds(reserve.View(), c) + if c == category then draw else 0
    ensures reserve.View() == ToppedUp(old(reserve.View()), fee, category, cfg, reserve.backed && fails)
    ensures reserve.backed && fails ==> draw == 0
    ensures !reserve.backed || !fails ==>
              (payout >= cfg.minReplayPayout <==> Funds(old(reserve.View()), category) >= Shortfall(fee, cfg))
  {
    var base := Portion(fee, cfg.replayExecutorShare);
    SecondPart(fee, true, cfg);
    if base >= cfg.minReplayPayout {
      return base, 0;
    }
    DrawnFunds(reserve.View(), category, cfg.minReplayPayout - base);
    LoadedFunds(reserve.View(), category);
    var ok: bool;
    draw, ok := reserve.Draw(category, cfg.minReplayPayout - base, fails);
    payout := base + draw;
  }

  /** The split of the fee, or an error if the accrual could not be stored. */
  method ProcessSettlement(fee: nat, category: string, replay: bool, reserve: ReplayReserve?, cfg: Config, fails: bool)
    returns (result: Split, ok: bool)
    requires ConfigOk(cfg) && fee < U64
    modifies reserve
    ensures result == ComputeFeeSplit(fee, replay, cfg)
    ensures ok <==> reserve == null || !reserve.backed || !fails || result.reserve == 0
    ensures reserve != null ==>
              reserve.View() == Settled(old(reserve.View()), fee, category, replay, cfg, reserve.backed && fails)
    ensures reserve != null && Sized(old(reserve.View())) ==>
              forall c :: Funds(reserve.View(), c) ==
                          if c == category then Wrap(Funds(old(reserve.View()), c) + result.reserve)
                          else Funds(old(reserve.View()), c)
  {
    result, ok := ComputeFeeSplit(fee, replay, cfg), true;
    SecondPart(fee, replay, cfg);
    if reserve == null {
      return;
    }
    if !replay && result.reserve > 0 {
      AccruedFunds(reserve.View(), category, result.reserve);
      UnsavedFunds(reserve.View(), category, result.reserve);
      ok := reserve.Accrue(category, result.reserve, fails);
    }
  }

  lemma WrapLoses(x: nat, y: nat)
    requires x < U64 && y < U64
    ensures Wrap(x + y) + (if x + y >= U64 then U64 else 0) == x + y
  {
  }

  /** The comment of the settlement says that an error leaves the reserve as it was. It never does: a settlement fails
  only with a positive amount to accrue, and the amount stays in memory. A restart drops it, with whatever else was not
  stored. */
  lemma FailedSettlement(pool: Pool, category: string, amount: nat, warm: set<string>)
    requires Sized(pool) && pool.backed && 0 < amount < U64
    ensures var after := Unsaved(pool, category, amount);
      && Funds(after, category) != Funds(pool, category)
      && (forall c :: Funds(Restarted(after, warm), c) == At(pool.stored, c))
      && (Saved(pool) ==> !Saved(after) && forall c :: Funds(Restarted(after, warm), c) == Funds(pool, c))
  {
    var after := Unsaved(pool, category, amount);
    UnsavedFunds(pool, category, amount);
    WrapLoses(Funds(pool, category), amount);
    RestartedFunds(pool, warm);
    RestartedFunds(after, warm);
    if Saved(pool) {
      assert At(pool.stored, category) == Funds(pool, category);
      assert after.balances[category] != At(after.stored, category);
    }
  }

  /** A retry that succeeds adds the amount once more, so the store gets it twice. */
  lemma RetriedSettlement(pool: Pool, category: string, amount: nat)
    requires pool.backed
    ensures var retried := Accrued(Unsaved(pool, category, amount), category, amount);
      At(retried.stored, category) == Funds(retried, category) == Wrap(Funds(pool, category) + amount + amount)
  {
    UnsavedFunds(pool, category, amount);
    AccruedFunds(Unsaved(pool, category, amount), category, amount);
    WrapAdd(Funds(pool, category) + amount, amount);
  }
}
