/** The Bech32 checksum of BIP-173: a linear code over five-bit symbols. */
module Bech32 {
  import opened BitGroups
  import opened ChecksumStep
  import opened Registers

  // ---- the register as a code

  type Reg = s: Bits | |s| == 30 witness Zero(30)

  function Step(c: Reg, v: nat): Reg {
    Xor(Advance(c), ToBits(v, 30))
  }

  function Put(c: Reg, u: Bits): Reg {
    if |u| <= 30 then Xor(c, Pad(u)) else c
  }

  /** The number one in the register. */
  const ONE: Reg := Zero(29) + [true]

  const BIP173: Code<Reg> := Code<Reg>.Code(ONE, Step, Put)

  function Polymod(values: seq<nat>): Reg {
    Read(BIP173, values)
  }

  lemma StepInjective(c: Reg, d: Reg, v: nat)
    requires Step(c, v) == Step(d, v)
    ensures c == d
  {
    XorCancels(Advance(c), ToBits(v, 30));
    XorCancels(Advance(d), ToBits(v, 30));
    AdvanceInjective(c, d);
  }

  lemma {:induction false} ToBitsZero(n: nat)
    ensures ToBits(0, n) == Zero(n)
  {
    if n > 0 {
      ToBitsZero(n - 1);
    }
  }

  lemma StepLinear(a: Reg, u: Bits, v: nat)
    requires |u| <= 25 && Fits(v, 5)
    ensures Step(Put(a, u), v) == Put(Step(a, 0), u + ToBits(v, 5))
  {
    AdvanceLow(a, u);
    XorEnters(Advance(a), u, v);
    ToBitsZero(30);
    XorZero(Advance(a));
  }

  lemma PutNothing(a: Reg)
    ensures Put(a, []) == a
  {
    assert Pad([]) == Zero(30);
    XorZero(a);
  }

  lemma PutInjective(a: Reg, u: Bits, u': Bits)
    requires |u| == |u'| == 30 && Put(a, u) == Put(a, u')
    ensures u == u'
  {
    assert Pad(u) == u && Pad(u') == u';
    XorCancels(a, u);
    XorCancels(a, u');
  }

  lemma CodeLaws()
    ensures Linear(BIP173) && Lossless(BIP173)
  {
    forall a: Reg
      ensures Put(a, []) == a
    {
      PutNothing(a);
    }
    forall a: Reg, u: Bits, v: nat | |u| <= 25 && Fits(v, 5)
      ensures Step(Put(a, u), v) == Put(Step(a, 0), u + ToBits(v, 5))
    {
      StepLinear(a, u, v);
    }
    forall a: Reg, u: Bits, u': Bits | |u| == |u'| == 30 && Put(a, u) == Put(a, u')
      ensures u == u'
    {
      PutInjective(a, u, u');
    }
    forall a: Reg, b: Reg, v: nat | Step(a, v) == Step(b, v)
      ensures a == b
    {
      StepInjective(a, b, v);
    }
  }

  // ---- the checksum of an address

  /** The prefix as the checksum sees it: the high bits of every character, a zero, the low bits. */
  function HrpExpand(hrp: string): seq<nat> {
    seq(|hrp|, i requires 0 <= i < |hrp| => hrp[i] as int / 32 % 256) + [0] +
    seq(|hrp|, i requires 0 <= i < |hrp| => hrp[i] as int % 32)
  }

  predicate Verifies(hrp: string, data: seq<nat>) {
    Polymod(HrpExpand(hrp) + data) == ONE
  }

  function Checksum(hrp: string, data: seq<nat>): (c: seq<nat>)
    ensures |c| == 6
  {
    Symbols(Xor(Polymod(HrpExpand(hrp) + data + Zeros(6)), ONE), 6)
  }

  lemma ChecksumShape(hrp: string, data: seq<nat>)
    ensures Groups(Checksum(hrp, data), 5)
  {
    SymbolsFit(Xor(Polymod(HrpExpand(hrp) + data + Zeros(6)), ONE), 6);
  }

  /** The six checksum symbols exist and are unique: exactly one completion of a prefix and its data verifies. */
  lemma ChecksumUnique(hrp: string, data: seq<nat>, c: seq<nat>)
    requires Groups(c, 5) && |c| == 6
    ensures Verifies(hrp, data + c) <==> c == Checksum(hrp, data)
  {
    var x := HrpExpand(hrp) + data;
    assert HrpExpand(hrp) + (data + c) == x + c;
    CodeLaws();
    TailEnters(BIP173, x, c);
    LastSix(Polymod(x + Zeros(6)), c);
  }

  lemma LastSix(p: Reg, c: seq<nat>)
    requires Groups(c, 5) && |c| == 6
    ensures Put(p, Tail(c)) == ONE <==> c == Symbols(Xor(p, ONE), 6)
  {
    SymbolsThere(c);
    SymbolsBack(Xor(p, ONE), 6);
    OneAnswer(p, Tail(c), ONE);
  }

  lemma OneAnswer(p: Reg, t: Bits, one: Bits)
    requires |t| == |one| == 30
    ensures Put(p, t) == one <==> t == Xor(p, one)
  {
    assert Pad(t) == t;
    XorCancels(p, t);
    XorCancels(p, one);
  }

  // ---- error detection

  /** Any damage confined to six neighbouring symbols is detected, in data of any length behind any prefix. */
  lemma BurstDetected(hrp: string, data: seq<nat>, data': seq<nat>, i: nat)
    requires Groups(data, 5) && Groups(data', 5) && BurstAt(data, data', i) && data != data'
    requires Verifies(hrp, data)
    ensures !Verifies(hrp, data')
  {
    CodeLaws();
    BurstChanges(BIP173, HrpExpand(hrp), data, data', i);
  }

  /** In particular a single wrong symbol is. */
  lemma SingleErrorDetected(hrp: string, data: seq<nat>, i: nat, symbol: nat)
    requires Groups(data, 5) && i < |data| && Fits(symbol, 5) && symbol != data[i]
    requires Verifies(hrp, data)
    ensures !Verifies(hrp, data[i := symbol])
  {
    var data' := data[i := symbol];
    assert data'[i] != data[i];
    BurstDetected(hrp, data, data', i);
  }

  /** The register loop. */
  method ComputePolymod(values: seq<nat>) returns (chk: Bits)
    ensures chk == Polymod(values)
  {
    var c: Reg := ONE;
    for i := 0 to |values|
      invariant c == Read(BIP173, values[..i])
    {
      ReadAppend(BIP173, values[..i], values[i]);
      assert values[..i + 1] == values[..i] + [values[i]];
      c := Step(c, values[i]);
    }
    assert values[..|values|] == values;
    chk := c;
  }

  /** Reads the six symbols off the register. */
  method CreateChecksum(hrp: string, data: seq<nat>) returns (c: seq<nat>)
    ensures c == Checksum(hrp, data)
  {
    var polymod := ComputePolymod(HrpExpand(hrp) + data + Zeros(6));
    polymod := Xor(polymod, ONE);
    c := [];
    for i := 0 to 6
      invariant |c| == i && forall j :: 0 <= j < i ==> c[j] == Symbols(polymod, 6)[j]
    {
      SymbolAt(polymod, 6, i);
      c := c + [FromBits(polymod[5 * i..5 * i + 5])];
    }
    assert c == Symbols(polymod, 6);
  }
}
