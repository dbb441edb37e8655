/** The money of the replay reserve over whole runs, with writes that may fail. */
module ReserveRuns {
  import opened WeightedSets
  import opened FeeSplit
  import opened Reserve

  /** One task settled in a category, with the executor paid first if there was a replay; outside funding; a draw on its
  own; a lookup; a restart. The first three write to the store, which may fail. */
  datatype Step =
    | Settle(category: string, fee: nat, replay: bool, fails: bool)
    | TopUp(category: string, amount: nat, fails: bool)
    | Withdraw(category: string, amount: nat, fails: bool)
    | Look(category: string)
    | Restart(warm: set<string>)

  /** Amounts are 64-bit. A restart keeps the funds only if there is a store. */
  predicate Allowed(backed: bool, step: Step) {
    match step
    case Settle(_, fee, _, _) => fee < U64
    case TopUp(_, amount, _) => amount < U64
    case Withdraw(_, amount, _) => amount < U64
    case Look(_) => true
    case Restart(_) => backed
  }

  predicate Writes(step: Step) {
    step.Settle? || step.TopUp? || step.Withdraw?
  }

  predicate Failing(backed: bool, step: Step) {
    backed && Writes(step) && step.fails
  }

  /** What a step is to add to the reserve. */
  function Deposit(step: Step, cfg: Config): (r: nat)
    requires ConfigOk(cfg) && (step.Settle? ==> step.fee < U64) && (step.TopUp? ==> step.amount < U64)
    ensures r < U64
  {
    match step
    case Settle(_, fee, replay, _) => if replay then 0 else Portion(fee, cfg.replayReserveShare)
    case TopUp(_, amount, _) => amount
    case _ => 0
  }

  /** What a step asks of the reserve. */
  function Demand(step: Step, cfg: Config): nat
    requires ConfigOk(cfg)
  {
    match step
    case Settle(_, fee, replay, _) => if replay then Shortfall(fee, cfg) else 0
    case Withdraw(_, amount, _) => amount
    case _ => 0
  }

  /** A settlement without anything to deposit or to draw does not touch the reserve. */
  function Next(pool: Pool, step: Step, cfg: Config): (r: Pool)
    requires ConfigOk(cfg) && Allowed(pool.backed, step)
    ensures r.backed == pool.backed
  {
    match step
    case Settle(category, fee, replay, _) =>
      if Deposit(step, cfg) > 0 then AfterDeposit(pool, category, Deposit(step, cfg), Failing(pool.backed, step))
      else if Demand(step, cfg) > 0 then AfterDraw(pool, category, Demand(step, cfg), Failing(pool.backed, step))
      else pool
    case TopUp(category, amount, _) => AfterDeposit(pool, category, amount, Failing(pool.backed, step))
    case Withdraw(category, amount, _) => AfterDraw(pool, category, amount, Failing(pool.backed, step))
    case Look(category) => Loaded(pool, category)
    case Restart(warm) => Restarted(pool, warm)
  }

  /** The steps are what the settlement functions do, also when a write fails: without a replay the accrual, after one
  the executor's top-up. */
  lemma SettleIs(pool: Pool, category: string, fee: nat, replay: bool, fails: bool, cfg: Config)
    requires ConfigOk(cfg) && fee < U64
    ensures var failing := pool.backed && fails;
      Next(pool, Settle(category, fee, replay, fails), cfg) ==
      Settled(if replay then ToppedUp(pool, fee, category, cfg, failing) else pool, fee, category, replay, cfg, failing)
  {
    SecondPart(fee, replay, cfg);
  }

  predicate AllAllowed(backed: bool, steps: seq<Step>) {
    forall i :: 0 <= i < |steps| ==> Allowed(backed, steps[i])
  }

  function Run(pool: Pool, steps: seq<Step>, cfg: Config): (r: Pool)
    requires ConfigOk(cfg) && AllAllowed(pool.backed, steps)
    ensures r.backed == pool.backed
  {
    if steps == [] then pool
    else Next(Run(pool, steps[..|steps| - 1], cfg), steps[|steps| - 1], cfg)
  }

  // ---- the books of one category

  /** Money that came in, that was paid out, that splits paid beyond their fee, that an overflow of the 64-bit balance
  dropped, that a failed accrual left in memory though its settlement was refused, and the difference a restart made. */
  datatype Ledger = Ledger(received: nat, paid: nat, minted: nat, overflow: nat, phantom: nat, dropped: int)

  const BLANK: Ledger := Ledger(0, 0, 0, 0, 0, 0)

  predicate Concerns(step: Step, category: string) {
    Writes(step) && step.category == category
  }

  function Overflow(x: nat): nat {
    if x >= U64 then U64 else 0
  }

  /** What a settlement pays to verifier, protocol and, after a replay, the executor's own share. */
  function Shares(step: Step, cfg: Config): nat
    requires ConfigOk(cfg) && step.Settle? && step.fee < U64
  {
    var s := ComputeFeeSplit(step.fee, step.replay, cfg);
    s.verifier + s.treasury + s.dispute + s.canary + s.executor
  }

  /** What a settlement hands out beyond its fee. */
  function Minted(step: Step, cfg: Config): nat
    requires ConfigOk(cfg) && step.Settle? && step.fee < U64
  {
    SplitExcess(step.fee, step.replay, cfg);
    SecondPart(step.fee, step.replay, cfg);
    Shares(step, cfg) + Deposit(step, cfg) - step.fee
  }

  /** The entries of one step. A refused deposit brings in nothing and pays nothing. */
  function Entry(pool: Pool, step: Step, category: string, cfg: Config): Ledger
    requires ConfigOk(cfg) && Allowed(pool.backed, step)
  {
    if step.Restart? then BLANK.(dropped := Funds(pool, category) - At(pool.stored, category))
    else if !Concerns(step, category) then BLANK
    else
      var failing, deposit := Failing(pool.backed, step), Deposit(step, cfg);
      var drawn := if failing then 0 else DrawAmount(pool, category, Demand(step, cfg));
      var over := Overflow(Funds(pool, category) + deposit);
      if deposit > 0 && failing then BLANK.(overflow := over, phantom := deposit)
      else if step.Settle? then
        BLANK.(received := step.fee, paid := Shares(step, cfg) + drawn, minted := Minted(step, cfg), overflow := over)
      else if step.TopUp? then BLANK.(received := step.amount, overflow := over)
      else BLANK.(paid := drawn)
  }

  function Add(a: Ledger, b: Ledger): Ledger {
    Ledger(a.received + b.received, a.paid + b.paid, a.minted + b.minted, a.overflow + b.overflow,
           a.phantom + b.phantom, a.dropped + b.dropped)
  }

  function Books(pool: Pool, steps: seq<Step>, category: string, cfg: Config): Ledger
    requires ConfigOk(cfg) && AllAllowed(pool.backed, steps)
  {
    if steps == [] then BLANK else
      var before, last := steps[..|steps| - 1], steps[|steps| - 1];
      Add(Books(pool, before, category, cfg), Entry(Run(pool, before, cfg), last, category, cfg))
  }

  /** Whatever happened, the funds are the balance of the books. */
  ghost predicate Balanced(before: Pool, after: Pool, category: string, b: Ledger) {
    Funds(after, category) + b.paid + b.overflow + b.dropped ==
    Funds(before, category) + b.received + b.minted + b.phantom
  }

  lemma DepositFunds(pool: Pool, cat: string, amount: nat, failing: bool, category: string)
    requires Sized(pool) && amount < U64
    ensures Sized(AfterDeposit(pool, cat, amount, failing))
    ensures Funds(AfterDeposit(pool, cat, amount, failing), category)
            + (if cat == category then Overflow(Funds(pool, category) + amount) else 0) ==
            Funds(pool, category) + if cat == category then amount else 0
  {
    AccruedFunds(pool, cat, amount);
    UnsavedFunds(pool, cat, amount);
    WrapLoses(Funds(pool, cat), amount);
  }

  lemma DrawFunds(pool: Pool, cat: string, amount: nat, failing: bool, category: string)
    requires Sized(pool)
    ensures Sized(AfterDraw(pool, cat, amount, failing))
    ensures Funds(AfterDraw(pool, cat, amount, failing), category)
            + (if cat == category && !failing then DrawAmount(pool, cat, amount) else 0) == Funds(pool, category)
  {
    DrawnFunds(pool, cat, amount);
    LoadedFunds(pool, cat);
  }

  lemma SettleBalanced(pool: Pool, step: Step, category: string, cfg: Config)
    requires ConfigOk(cfg) && Sized(pool) && step.Settle? && step.fee < U64
    ensures Sized(Next(pool, step, cfg))
    ensures Balanced(pool, Next(pool, step, cfg), category, Entry(pool, step, category, cfg))
  {
    var failing := Failing(pool.backed, step);
    if Deposit(step, cfg) > 0 {
      DepositFunds(pool, step.category, Deposit(step, cfg), failing, category);
    } else if Demand(step, cfg) > 0 {
      DrawFunds(pool, step.category, Demand(step, cfg), failing, category);
    }
  }

  lemma StepBalanced(pool: Pool, step: Step, category: string, cfg: Config)
    requires ConfigOk(cfg) && Sized(pool) && Allowed(pool.backed, step)
    ensures Sized(Next(pool, step, cfg))
    ensures Balanced(pool, Next(pool, step, cfg), category, Entry(pool, step, category, cfg))
  {
    match step
    case Settle(_, _, _, _) => SettleBalanced(pool, step, category, cfg);
    case TopUp(cat, amount, _) => DepositFunds(pool, cat, amount, Failing(pool.backed, step), category);
    case Withdraw(cat, amount, _) => DrawFunds(pool, cat, amount, Failing(pool.backed, step), category);
    case Look(cat) => LoadedFunds(pool, cat);
    case Restart(warm) => RestartedFunds(pool, warm);
  }

  /** Over any run of settlements, top-ups, draws, lookups and restarts, with any writes failing, for every category and
  to the last unit: the reserve at the end, what was paid, what overflowed and what restarts dropped equal the reserve
  at the start, what was received, what splits paid beyond their fee and what refused deposits left behind. */
  lemma {:induction false} MoneyConserved(pool: Pool, steps: seq<Step>, category: string, cfg: Config)
    requires ConfigOk(cfg) && Sized(pool) && AllAllowed(pool.backed, steps)
    ensures Sized(Run(pool, steps, cfg))
    ensures Balanced(pool, Run(pool, steps, cfg), category, Books(pool, steps, category, cfg))
  {
    if steps != [] {
      var before, last := steps[..|steps| - 1], steps[|steps| - 1];
      MoneyConserved(pool, before, category, cfg);
      StepBalanced(Run(pool, before, cfg), last, category, cfg);
    }
  }

  /** A settlement hands out its fee and nothing more exactly when the parts of the fee fit. */
  lemma MintedUnlessFits(step: Step, cfg: Config)
    requires ConfigOk(cfg) && step.Settle? && step.fee < U64
    ensures Minted(step, cfg) == 0 <==> Fits(step.fee, step.replay, cfg)
  {
    SplitExcess(step.fee, step.replay, cfg);
    SecondPart(step.fee, step.replay, cfg);
  }

  predicate SharesOk(cfg: Config) {
    && ConfigOk(cfg)
    && cfg.verifierShareNoReplay + cfg.replayReserveShare <= 1.0
    && cfg.verifierShareWithReplay + cfg.replayExecutorShare <= 1.0
    && cfg.disputeShare + cfg.canaryShare <= 1.0
  }

  lemma {:induction false} NothingMinted(pool: Pool, steps: seq<Step>, category: string, cfg: Config)
    requires SharesOk(cfg) && AllAllowed(pool.backed, steps)
    ensures Books(pool, steps, category, cfg).minted == 0
  {
    if steps != [] {
      var before, last := steps[..|steps| - 1], steps[|steps| - 1];
      NothingMinted(pool, before, category, cfg);
      if last.Settle? {
        SharesFit(last.fee, last.replay, cfg);
        MintedUnlessFits(last, cfg);
      }
    }
  }

  // ---- what is in memory only

  /** The deposits of a category since the store last got its balance. */
  function Gap(backed: bool, steps: seq<Step>, category: string, cfg: Config): nat
    requires ConfigOk(cfg) && AllAllowed(backed, steps)
  {
    if steps == [] then 0 else
      var before, last := steps[..|steps| - 1], steps[|steps| - 1];
      GapAfter(backed, Gap(backed, before, category, cfg), last, category, cfg)
  }

  function GapAfter(backed: bool, gap: nat, step: Step, category: string, cfg: Config): nat
    requires ConfigOk(cfg) && Allowed(backed, step)
  {
    if step.Restart? then 0
    else if !Concerns(step, category) then gap
    else if Failing(backed, step) then gap + Deposit(step, cfg)
    else if step.Settle? && Deposit(step, cfg) == 0 && Demand(step, cfg) == 0 then gap
    else 0
  }

  ghost predicate Behind(pool: Pool, category: string, gap: nat) {
    Funds(pool, category) == Wrap(At(pool.stored, category) + gap)
  }

  lemma DepositBehind(pool: Pool, cat: string, amount: nat, failing: bool, category: string, gap: nat)
    requires Sized(pool) && pool.backed && Behind(pool, category, gap)
    ensures Behind(AfterDeposit(pool, cat, amount, failing), category,
                   if cat != category then gap else if failing then gap + amount else 0)
  {
    AccruedFunds(pool, cat, amount);
    UnsavedFunds(pool, cat, amount);
    WrapAdd(At(pool.stored, category) + gap, amount);
  }

  lemma DrawBehind(pool: Pool, cat: string, amount: nat, failing: bool, category: string, gap: nat)
    requires Sized(pool) && pool.backed && Behind(pool, category, gap)
    ensures Behind(AfterDraw(pool, cat, amount, failing), category, if cat != category || failing then gap else 0)
  {
    DrawnFunds(pool, cat, amount);
    LoadedFunds(pool, cat);
  }

  lemma StepBehind(pool: Pool, step: Step, category: string, cfg: Config, gap: nat)
    requires ConfigOk(cfg) && Sized(pool) && pool.backed && Allowed(true, step) && Behind(pool, category, gap)
    ensures Behind(Next(pool, step, cfg), category, GapAfter(true, gap, step, category, cfg))
  {
    var failing := Failing(true, step);
    match step
    case Settle(cat, _, _, _) =>
      if Deposit(step, cfg) > 0 {
        DepositBehind(pool, cat, Deposit(step, cfg), failing, category, gap);
      } else if Demand(step, cfg) > 0 {
        DrawBehind(pool, cat, Demand(step, cfg), failing, category, gap);
      }
    case TopUp(cat, amount, _) => DepositBehind(pool, cat, amount, failing, category, gap);
    case Withdraw(cat, amount, _) => DrawBehind(pool, cat, amount, failing, category, gap);
    case Look(cat) => LoadedFunds(pool, cat);
    case Restart(warm) => RestartedFunds(pool, warm);
  }

  /** The cache is ahead of the store by exactly the deposits that could not be stored since the category's last
  successful write or the last restart; that is what a restart drops. */
  lemma {:induction false} AheadByGap(pool: Pool, steps: seq<Step>, category: string, cfg: Config)
    requires ConfigOk(cfg) && Sized(pool) && Saved(pool) && pool.backed && AllAllowed(true, steps)
    ensures Behind(Run(pool, steps, cfg), category, Gap(true, steps, category, cfg))
  {
    if steps == [] {
      assert category in pool.balances ==> pool.balances[category] == At(pool.stored, category);
    } else {
      var before, last := steps[..|steps| - 1], steps[|steps| - 1];
      AheadByGap(pool, before, category, cfg);
      MoneyConserved(pool, before, category, cfg);
      StepBehind(Run(pool, before, cfg), last, category, cfg, Gap(true, before, category, cfg));
    }
  }

  // ---- nothing fails, nothing overflows

  ghost predicate NoFailures(backed: bool, steps: seq<Step>) {
    forall i :: 0 <= i < |steps| ==> !Failing(backed, steps[i])
  }

  lemma StepSaved(pool: Pool, step: Step, cfg: Config)
    requires ConfigOk(cfg) && Saved(pool) && Allowed(pool.backed, step) && !Failing(pool.backed, step)
    ensures Saved(Next(pool, step, cfg))
  {
    match step
    case Settle(cat, _, _, _) =>
      AccruedFunds(pool, cat, Deposit(step, cfg));
      DrawnFunds(pool, cat, Demand(step, cfg));
    case TopUp(cat, amount, _) => AccruedFunds(pool, cat, amount);
    case Withdraw(cat, amount, _) => DrawnFunds(pool, cat, amount);
    case Look(cat) => LoadedFunds(pool, cat);
    case Restart(warm) => RestartedFunds(pool, warm);
  }

  lemma {:induction false} CleanBooks(pool: Pool, steps: seq<Step>, category: string, cfg: Config)
    requires ConfigOk(cfg) && Saved(pool) && AllAllowed(pool.backed, steps) && NoFailures(pool.backed, steps)
    ensures Saved(Run(pool, steps, cfg))
    ensures var b := Books(pool, steps, category, cfg);
      b.phantom == 0 && b.dropped == 0 && (b.overflow == 0 || b.overflow >= U64)
  {
    if steps != [] {
      var before, last := steps[..|steps| - 1], steps[|steps| - 1];
      CleanBooks(pool, before, category, cfg);
      var at := Run(pool, before, cfg);
      StepSaved(at, last, cfg);
      assert at.backed && category in at.balances ==> at.balances[category] == At(at.stored, category);
    }
  }

  /** Without failing writes, and while the money of a category fits into 64 bits, nothing is lost and nothing appears:
  a category's reserve is what it was, plus what came in, minus what was paid. */
  lemma NothingLost(pool: Pool, steps: seq<Step>, category: string, cfg: Config)
    requires SharesOk(cfg) && Sized(pool) && Saved(pool)
    requires AllAllowed(pool.backed, steps) && NoFailures(pool.backed, steps)
    requires Funds(pool, category) + Books(pool, steps, category, cfg).received < U64
    ensures var b := Books(pool, steps, category, cfg);
      Funds(Run(pool, steps, cfg), category) + b.paid == Funds(pool, category) + b.received
  {
    MoneyConserved(pool, steps, category, cfg);
    NothingMinted(pool, steps, category, cfg);
    CleanBooks(pool, steps, category, cfg);
  }
}
