/** Division of an assurance fee. Amounts are unsigned 64-bit, shares are exact fractions. */
module FeeSplit {
  import opened WeightedSets

  datatype Config = Config(
    verifierShareNoReplay: real, replayReserveShare: real,
    verifierShareWithReplay: real, replayExecutorShare: real,
    treasuryShare: real, disputeShare: real, canaryShare: real,
    minReplayPayout: nat)

  predicate IsShare(x: real) {
    0.0 <= x <= 1.0
  }

  predicate ConfigOk(cfg: Config) {
    && IsShare(cfg.verifierShareNoReplay) && IsShare(cfg.replayReserveShare)
    && IsShare(cfg.verifierShareWithReplay) && IsShare(cfg.replayExecutorShare)
    && IsShare(cfg.treasuryShare) && IsShare(cfg.disputeShare) && IsShare(cfg.canaryShare)
    && cfg.minReplayPayout < U64
  }

  /** The built-in configuration. */
  const DEFAULTS: Config := Config(0.60, 0.25, 0.40, 0.45, 0.667, 0.200, 0.133, 5_000_000)

  datatype Split = Split(
    total: nat, verifier: nat, reserve: nat, executor: nat, protocol: nat,
    treasury: nat, dispute: nat, canary: nat)

  /** The whole units in a share of an amount. */
  function Portion(amount: nat, share: real): (r: nat)
    requires IsShare(share)
    ensures r <= amount && r as real <= amount as real * share < r as real + 1.0
  {
    assert 0.0 <= amount as real * share <= amount as real * 1.0;
    (amount as real * share).Floor
  }

  /** One 64-bit subtraction. */
  function Sub(a: nat, b: nat): (r: nat)
    requires a < U64 && b < U64
    ensures r < U64
  {
    if a >= b then a - b else a + U64 - b
  }

  /** The protocol portion over treasury, dispute reserve and canary budget, the rounding remainder to the treasury. */
  function SplitProtocol(s: Split, cfg: Config): (r: Split)
    requires ConfigOk(cfg) && s.protocol < U64
    ensures r.protocol == s.protocol
  {
    if s.protocol == 0 then s else
      var treasury := Portion(s.protocol, cfg.treasuryShare);
      var dispute := Portion(s.protocol, cfg.disputeShare);
      var canary := Portion(s.protocol, cfg.canaryShare);
      var remainder := Sub(Sub(Sub(s.protocol, treasury), dispute), canary);
      s.(treasury := Wrap(treasury + remainder), dispute := dispute, canary := canary)
  }

  /** The verifier's part and, by turns, the reserve's or the replay executor's; the protocol gets the rest. */
  function TopSplit(fee: nat, replay: bool, cfg: Config): (s: Split)
    requires ConfigOk(cfg) && fee < U64
    ensures s.protocol < U64
  {
    var s := Split(fee, 0, 0, 0, 0, 0, 0, 0);
    if !replay then
      var verifier := Portion(fee, cfg.verifierShareNoReplay);
      var reserve := Portion(fee, cfg.replayReserveShare);
      s.(verifier := verifier, reserve := reserve, protocol := Sub(Sub(fee, verifier), reserve))
    else
      var verifier := Portion(fee, cfg.verifierShareWithReplay);
      var executor := Portion(fee, cfg.replayExecutorShare);
      s.(verifier := verifier, executor := executor, protocol := Sub(Sub(fee, verifier), executor))
  }

  function ComputeFeeSplit(fee: nat, replay: bool, cfg: Config): Split
    requires ConfigOk(cfg) && fee < U64
  {
    if fee == 0 then Split(0, 0, 0, 0, 0, 0, 0, 0) else SplitProtocol(TopSplit(fee, replay, cfg), cfg)
  }

  /** Nothing is created and nothing is lost, on either level. */
  predicate Conserved(s: Split) {
    && s.verifier + s.reserve + s.executor + s.protocol == s.total
    && s.treasury + s.dispute + s.canary == s.protocol
  }

  function VerifierShare(replay: bool, cfg: Config): real {
    if replay then cfg.verifierShareWithReplay else cfg.verifierShareNoReplay
  }

  function SecondShare(replay: bool, cfg: Config): real {
    if replay then cfg.replayExecutorShare else cfg.replayReserveShare
  }

  predicate ProtocolFits(p: nat, cfg: Config)
    requires ConfigOk(cfg)
  {
    Portion(p, cfg.disputeShare) + Portion(p, cfg.canaryShare) <= p
  }

  /** The verifier's and the second part fit into the fee, and the dispute and canary parts into what is left. */
  predicate Fits(fee: nat, replay: bool, cfg: Config)
    requires ConfigOk(cfg)
  {
    var taken := Portion(fee, VerifierShare(replay, cfg)) + Portion(fee, SecondShare(replay, cfg));
    taken <= fee && ProtocolFits(fee - taken, cfg)
  }

  lemma TreasuryTakesRest(p: nat, treasury: nat, dispute: nat, canary: nat)
    requires treasury <= p < U64 && dispute <= p && canary <= p
    ensures Wrap(treasury + Sub(Sub(Sub(p, treasury), dispute), canary)) == Sub(Sub(p, dispute), canary)
  {
  }

  lemma ProtocolConserved(s: Split, cfg: Config)
    requires ConfigOk(cfg) && s.protocol < U64 && s.treasury == s.dispute == s.canary == 0
    ensures var r := SplitProtocol(s, cfg);
            r == s.(treasury := r.treasury, dispute := r.dispute, canary := r.canary)
            && r.treasury + r.dispute + r.canary >= s.protocol
            && (r.treasury + r.dispute + r.canary == s.protocol <==> ProtocolFits(s.protocol, cfg))
  {
    if s.protocol != 0 {
      TreasuryTakesRest(s.protocol, Portion(s.protocol, cfg.treasuryShare), Portion(s.protocol, cfg.disputeShare),
                        Portion(s.protocol, cfg.canaryShare));
    }
  }

  lemma RestConserved(fee: nat, first: nat, second: nat)
    requires first <= fee < U64 && second <= fee
    ensures first + second + Sub(Sub(fee, first), second) >= fee
    ensures first + second + Sub(Sub(fee, first), second) == fee <==> first + second <= fee
    ensures first + second <= fee ==> Sub(Sub(fee, first), second) == fee - (first + second)
  {
  }

  lemma TopShape(fee: nat, replay: bool, cfg: Config)
    requires ConfigOk(cfg) && fee < U64
    ensures var first := Portion(fee, VerifierShare(replay, cfg)); var second := Portion(fee, SecondShare(replay, cfg));
            TopSplit(fee, replay, cfg) == Split(fee, first, if replay then 0 else second, if replay then second else 0,
                                                Sub(Sub(fee, first), second), 0, 0, 0)
  {
  }

  /** Without a replay the reserve gets its share and no executor is paid; after one it is the other way around. */
  lemma SecondPart(fee: nat, replay: bool, cfg: Config)
    requires ConfigOk(cfg) && fee < U64
    ensures var s := ComputeFeeSplit(fee, replay, cfg);
            s.total == fee && s.verifier == Portion(fee, VerifierShare(replay, cfg))
            && if replay then s.reserve == 0 && s.executor == Portion(fee, cfg.replayExecutorShare)
               else s.executor == 0 && s.reserve == Portion(fee, cfg.replayReserveShare)
  {
    TopShape(fee, replay, cfg);
    ProtocolConserved(TopSplit(fee, replay, cfg), cfg);
  }

  /** A fee is split exactly if and only if its parts fit. The treasury's share does not matter. */
  lemma ConservedIffFits(fee: nat, replay: bool, cfg: Config)
    requires ConfigOk(cfg) && fee < U64
    ensures Conserved(ComputeFeeSplit(fee, replay, cfg)) <==> Fits(fee, replay, cfg)
  {
    var s, top := ComputeFeeSplit(fee, replay, cfg), TopSplit(fee, replay, cfg);
    var first, second := Portion(fee, VerifierShare(replay, cfg)), Portion(fee, SecondShare(replay, cfg));
    TopShape(fee, replay, cfg);
    ProtocolConserved(top, cfg);
    assert s.treasury + s.dispute + s.canary == s.protocol <==> ProtocolFits(top.protocol, cfg);
    RestConserved(fee, first, second);
    assert s.verifier + s.reserve + s.executor + s.protocol == fee <==> first + second <= fee;
  }

  /** A split never hands out less than the fee, and exactly the fee if and only if its parts fit. */
  lemma SplitExcess(fee: nat, replay: bool, cfg: Config)
    requires ConfigOk(cfg) && fee < U64
    ensures var s := ComputeFeeSplit(fee, replay, cfg);
      var handed := s.verifier + s.reserve + s.executor + s.treasury + s.dispute + s.canary;
      handed >= fee && (handed == fee <==> Fits(fee, replay, cfg))
  {
    var top := TopSplit(fee, replay, cfg);
    TopShape(fee, replay, cfg);
    ProtocolConserved(top, cfg);
    RestConserved(fee, Portion(fee, VerifierShare(replay, cfg)), Portion(fee, SecondShare(replay, cfg)));
  }

  /** `n` is the whole units in a share of an amount. */
  predicate IsFloor(n: nat, amount: nat, share: real) {
    n as real <= amount as real * share < n as real + 1.0
  }

  /** Where the parts fit, each is what is whole in its own share: of the fee on the first level, of the protocol
  portion on the second. The protocol portion and the treasury get what is left. */
  lemma PartsAreFloors(fee: nat, replay: bool, cfg: Config)
    requires ConfigOk(cfg) && fee < U64 && Fits(fee, replay, cfg)
    ensures var s := ComputeFeeSplit(fee, replay, cfg);
      && IsFloor(s.verifier, fee, if replay then cfg.verifierShareWithReplay else cfg.verifierShareNoReplay)
      && IsFloor(s.reserve, fee, if replay then 0.0 else cfg.replayReserveShare)
      && IsFloor(s.executor, fee, if replay then cfg.replayExecutorShare else 0.0)
      && s.protocol == fee - s.verifier - s.reserve - s.executor
      && IsFloor(s.dispute, s.protocol, cfg.disputeShare) && IsFloor(s.canary, s.protocol, cfg.canaryShare)
      && s.treasury == s.protocol - s.dispute - s.canary
  {
    var top := TopSplit(fee, replay, cfg);
    TopShape(fee, replay, cfg);
    RestConserved(fee, top.verifier, top.reserve + top.executor);
    NothingOf(fee);
    ProtocolParts(top, cfg);
  }

  lemma NothingOf(fee: nat)
    ensures IsFloor(0, fee, 0.0)
  {
    assert fee as real * 0.0 == 0.0;
  }

  lemma ProtocolParts(s: Split, cfg: Config)
    requires ConfigOk(cfg) && s.protocol < U64 && s.treasury == s.dispute == s.canary == 0
    requires ProtocolFits(s.protocol, cfg)
    ensures var r := SplitProtocol(s, cfg);
      && r == s.(treasury := r.treasury, dispute := r.dispute, canary := r.canary)
      && IsFloor(r.dispute, s.protocol, cfg.disputeShare) && IsFloor(r.canary, s.protocol, cfg.canaryShare)
      && r.treasury + r.dispute + r.canary == s.protocol
  {
    ProtocolConserved(s, cfg);
    if s.protocol == 0 {
      NoShareOf(cfg.disputeShare);
      NoShareOf(cfg.canaryShare);
    }
  }

  lemma NoShareOf(share: real)
    ensures IsFloor(0, 0, share)
  {
    assert 0.0 * share == 0.0;
  }

  lemma Product(a: real, z: real)
    requires a >= 0.0 && z >= 0.0
    ensures a * z >= 0.0
  {
  }

  lemma SharesAddUp(a: real, x: real, y: real) returns (p: real, q: real)
    requires a >= 0.0 && x + y <= 1.0
    ensures p == a * x && q == a * y && p + q <= a
  {
    p, q := a * x, a * y;
    var rest := 1.0 - x - y;
    Product(a, rest);
    assert p + q + a * rest == a * (x + y + rest) == a * 1.0;
  }

  lemma PortionBelow(amount: nat, share: real, p: real)
    requires IsShare(share) && p == amount as real * share
    ensures Portion(amount, share) as real <= p
  {
  }

  lemma PortionsFit(amount: nat, x: real, y: real)
    requires IsShare(x) && IsShare(y) && x + y <= 1.0
    ensures Portion(amount, x) + Portion(amount, y) <= amount
  {
    var p, q := SharesAddUp(amount as real, x, y);
    PortionBelow(amount, x, p);
    PortionBelow(amount, y, q);
    WholeSum(Portion(amount, x), Portion(amount, y), amount, p, q);
  }

  lemma WholeSum(m: nat, n: nat, amount: nat, p: real, q: real)
    requires m as real <= p && n as real <= q && p + q <= amount as real
    ensures m + n <= amount
  {
    assert (m + n) as real == m as real + n as real;
  }

  lemma SharesFit(fee: nat, replay: bool, cfg: Config)
    requires ConfigOk(cfg)
    requires VerifierShare(replay, cfg) + SecondShare(replay, cfg) <= 1.0 && cfg.disputeShare + cfg.canaryShare <= 1.0
    ensures Fits(fee, replay, cfg)
  {
    PortionsFit(fee, VerifierShare(replay, cfg), SecondShare(replay, cfg));
    var taken := Portion(fee, VerifierShare(replay, cfg)) + Portion(fee, SecondShare(replay, cfg));
    assert ProtocolFits(fee - taken, cfg) by {
      PortionsFit(fee - taken, cfg.disputeShare, cfg.canaryShare);
    }
  }

  /** Shares that sum to at most one on each level split every fee exactly, with and without a replay. */
  lemma SharesConserve(fee: nat, replay: bool, cfg: Config)
    requires ConfigOk(cfg) && fee < U64
    requires VerifierShare(replay, cfg) + SecondShare(replay, cfg) <= 1.0 && cfg.disputeShare + cfg.canaryShare <= 1.0
    ensures Fits(fee, replay, cfg) && Conserved(ComputeFeeSplit(fee, replay, cfg))
  {
    SharesFit(fee, replay, cfg);
    ConservedIffFits(fee, replay, cfg);
  }

  lemma DefaultsConserve(fee: nat, replay: bool)
    requires fee < U64
    ensures ConfigOk(DEFAULTS) && Conserved(ComputeFeeSplit(fee, replay, DEFAULTS))
  {
    SharesConserve(fee, replay, DEFAULTS);
  }

  lemma OneFloor(n: nat, m: nat, amount: nat, share: real)
    requires IsFloor(n, amount, share) && IsFloor(m, amount, share)
    ensures n == m
  {
    var p := amount as real * share;
    assert n as real <= p < n as real + 1.0 && m as real <= p < m as real + 1.0;
  }

  lemma HundredMillionFloors()
    ensures IsFloor(60_000_000, 100_000_000, 0.60) && IsFloor(25_000_000, 100_000_000, 0.25)
    ensures IsFloor(40_000_000, 100_000_000, 0.40) && IsFloor(45_000_000, 100_000_000, 0.45)
    ensures IsFloor(3_000_000, 15_000_000, 0.200) && IsFloor(1_995_000, 15_000_000, 0.133)
  {
  }

  lemma HundredMillionParts(s: Split, verifier: real, verifierPart: nat)
    requires IsFloor(s.verifier, 100_000_000, verifier) && IsFloor(verifierPart, 100_000_000, verifier)
    requires s.protocol == 15_000_000 && s.treasury == s.protocol - s.dispute - s.canary
    requires IsFloor(s.dispute, s.protocol, 0.200) && IsFloor(s.canary, s.protocol, 0.133)
    ensures s.verifier == verifierPart
    ensures s.dispute == 3_000_000 && s.canary == 1_995_000 && s.treasury == 10_005_000
  {
    HundredMillionFloors();
    OneFloor(s.verifier, verifierPart, 100_000_000, verifier);
    OneFloor(s.dispute, 3_000_000, 15_000_000, 0.200);
    OneFloor(s.canary, 1_995_000, 15_000_000, 0.133);
  }

  /** A fee of a hundred million units under the built-in configuration, without and with a replay. */
  lemma DefaultsOfHundredMillion()
    ensures ConfigOk(DEFAULTS)
    ensures var s := ComputeFeeSplit(100_000_000, false, DEFAULTS);
      && s.verifier == 60_000_000 && s.reserve == 25_000_000 && s.executor == 0 && s.protocol == 15_000_000
      && s.dispute == 3_000_000 && s.canary == 1_995_000 && s.treasury == 10_005_000
    ensures var s := ComputeFeeSplit(100_000_000, true, DEFAULTS);
      && s.verifier == 40_000_000 && s.reserve == 0 && s.executor == 45_000_000 && s.protocol == 15_000_000
      && s.dispute == 3_000_000 && s.canary == 1_995_000 && s.treasury == 10_005_000
  {
    HundredMillion(false);
    HundredMillion(true);
  }

  lemma HundredMillion(replay: bool)
    ensures var s := ComputeFeeSplit(100_000_000, replay, DEFAULTS);
      && s.verifier == (if replay then 40_000_000 else 60_000_000)
      && s.reserve == (if replay then 0 else 25_000_000) && s.executor == (if replay then 45_000_000 else 0)
      && s.protocol == 15_000_000 && s.dispute == 3_000_000 && s.canary == 1_995_000 && s.treasury == 10_005_000
  {
    var s := ComputeFeeSplit(100_000_000, replay, DEFAULTS);
    SharesConserve(100_000_000, replay, DEFAULTS);
    PartsAreFloors(100_000_000, replay, DEFAULTS);
    SecondPart(100_000_000, replay, DEFAULTS);
    HundredMillionFloors();
    if replay {
      OneFloor(s.verifier, 40_000_000, 100_000_000, 0.40);
      OneFloor(s.executor, 45_000_000, 100_000_000, 0.45);
      HundredMillionParts(s, 0.40, 40_000_000);
    } else {
      OneFloor(s.verifier, 60_000_000, 100_000_000, 0.60);
      OneFloor(s.reserve, 25_000_000, 100_000_000, 0.25);
      HundredMillionParts(s, 0.60, 60_000_000);
    }
  }
}
