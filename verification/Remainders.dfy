/** The checksum register holds a remainder: polynomials over the field of 32 elements, written as the bits of their
coefficients from the highest power down, modulo the generator polynomial of BIP-173. */
module Remainders {
  import opened BitGroups
  import opened Registers
  import opened ChecksumStep
  import opened GaloisField
  import opened Bech32

  /** x^6 + 29x^5 + 22x^4 + 20x^3 + 21x^2 + 29x + 18, times `t`. */
  function GeneratorTimes(t: Bits): (p: Bits)
    requires |t| == 5
    ensures |p| == 35
  {
    t + Products(GENERATOR, t)
  }

  /** The generator polynomial times the polynomial with the coefficients `q`. */
  function Multiple(q: Bits): (p: Bits)
    requires |q| % 5 == 0
    ensures |p| == |q| + 30
  {
    if q == [] then Zero(30)
    else
      var front, t := q[..|q| - 5], q[|q| - 5..];
      Xor(Multiple(front) + Zero(5), Zero(|front|) + GeneratorTimes(t))
  }

  /** The polynomial one. */
  const UNIT: Reg := Zero(29) + [true]

  /** The polynomial times x, plus the value; one of more than five bits reaches into higher powers. */
  function Grown(m: Bits, v: nat): (m': Bits)
    requires |m| >= 30
    ensures |m'| == |m| + 5
  {
    Xor(m + Zero(5), Zero(|m| - 25) + ToBits(v, 30))
  }

  /** A one, and then the values as coefficients. */
  function Message(values: seq<nat>): (m: Bits)
    ensures |m| == 5 * |values| + 30
  {
    if values == [] then UNIT else Grown(Message(values[..|values| - 1]), values[|values| - 1])
  }

  /** `m` is the multiple by `q` of the generator polynomial, plus `r`. */
  ghost predicate Leaves(m: Bits, q: Bits, r: Reg) {
    |q| % 5 == 0 && |m| == |q| + 30 && m == Xor(Multiple(q), Zero(|q|) + r)
  }

  // ---- one step of the division

  lemma MultipleNext(q: Bits, t: Bits)
    requires |q| % 5 == 0 && |t| == 5
    ensures Multiple(q + t) == Xor(Multiple(q) + Zero(5), Zero(|q|) + (t + Feedback(t)))
  {
    assert (q + t)[..|q|] == q && (q + t)[|q|..] == t;
    FeedbackIsMultiple(t);
  }

  /** The coefficients of one step, one by one. */
  lemma DivideStep(m: Bits, p: Bits, c: Bits, f: Bits, v: Bits, n: nat)
    requires |m| == |p| == n + 30 && |c| == |f| == |v| == 30 && m == Xor(p, Zero(n) + c)
    ensures var r := Xor(Xor(c[5..] + Zero(5), f), v);
      Xor(m + Zero(5), Zero(n + 5) + v) == Xor(Xor(p + Zero(5), Zero(n) + (c[..5] + f)), Zero(n + 5) + r)
  {
  }

  lemma UndoStep(m: Bits, p: Bits, t: Bits, f: Bits, v: Bits, r: Bits, n: nat) returns (c: Bits)
    requires |m| == |p| == n + 30 && |t| == 5 && |f| == |v| == |r| == 30
    requires Xor(m + Zero(5), Zero(n + 5) + v) == Xor(Xor(p + Zero(5), Zero(n) + (t + f)), Zero(n + 5) + r)
    ensures |c| == 30 && c[..5] == t && m == Xor(p, Zero(n) + c) && r == Xor(Xor(c[5..] + Zero(5), f), v)
  {
    c := t + Xor(Xor(r, v), f)[..25];
    var lhs, rhs := Xor(m + Zero(5), Zero(n + 5) + v), Xor(Xor(p + Zero(5), Zero(n) + (t + f)), Zero(n + 5) + r);
    forall i | 0 <= i < n + 30
      ensures m[i] == Xor(p, Zero(n) + c)[i]
    {
      assert lhs[i] == rhs[i];
    }
    forall i | 0 <= i < 30
      ensures r[i] == Xor(Xor(c[5..] + Zero(5), f), v)[i]
    {
      assert lhs[n + 5 + i] == rhs[n + 5 + i];
    }
  }

  lemma LeavesNext(m: Bits, q: Bits, c: Reg, v: nat)
    requires Leaves(m, q, c)
    ensures Leaves(Grown(m, v), q + c[..5], Step(c, v))
  {
    DivideStep(m, Multiple(q), c, Feedback(c[..5]), ToBits(v, 30), |q|);
    MultipleNext(q, c[..5]);
  }

  lemma LeavesBefore(m: Bits, q: Bits, t: Bits, v: nat, r: Reg) returns (c: Reg)
    requires |m| == |q| + 30 && |t| == 5 && Leaves(Grown(m, v), q + t, r)
    ensures Leaves(m, q, c) && r == Step(c, v)
  {
    MultipleNext(q, t);
    c := UndoStep(m, Multiple(q), t, Feedback(t), ToBits(v, 30), r, |q|);
  }

  // ---- the whole division

  ghost predicate Remains(m: Bits, r: Reg) {
    exists q :: Leaves(m, q, r)
  }

  /** Division by the generator polynomial leaves `c`, and nothing else of its size. */
  ghost predicate OnlyRemains(m: Bits, c: Reg) {
    |m| >= 30 && Remains(m, c) && forall r :: Remains(m, r) ==> r == c
  }

  lemma RemainsNext(m: Bits, c: Reg, v: nat)
    requires |m| >= 30 && Remains(m, c)
    ensures Remains(Grown(m, v), Step(c, v))
  {
    var q :| Leaves(m, q, c);
    LeavesNext(m, q, c, v);
  }

  lemma RemainsBefore(m: Bits, v: nat, r: Reg) returns (c: Reg)
    requires |m| >= 30 && Remains(Grown(m, v), r)
    ensures Remains(m, c) && r == Step(c, v)
  {
    var q :| Leaves(Grown(m, v), q, r);
    var front, t := q[..|q| - 5], q[|q| - 5..];
    assert q == front + t;
    c := LeavesBefore(m, front, t, v, r);
  }

  lemma OnlyRemainsNext(m: Bits, c: Reg, v: nat)
    requires OnlyRemains(m, c)
    ensures OnlyRemains(Grown(m, v), Step(c, v))
  {
    RemainsNext(m, c, v);
    forall r | Remains(Grown(m, v), r)
      ensures r == Step(c, v)
    {
      var c' := RemainsBefore(m, v, r);
    }
  }

  lemma UnitRemains()
    ensures OnlyRemains(UNIT, ONE)
  {
    forall r: Reg
      ensures Xor(Zero(30), Zero(0) + r) == r
    {
    }
    assert Leaves(UNIT, [], ONE);
    forall r | Remains(UNIT, r)
      ensures r == ONE
    {
      var q :| Leaves(UNIT, q, r);
      assert q == [];
    }
  }

  /** What holds at the start and is passed on by every value holds of message and register. */
  lemma {:induction false} Carried(p: (Bits, Reg) -> bool, values: seq<nat>)
    requires p(UNIT, ONE) && forall m: Bits, c: Reg, v: nat :: |m| >= 30 && p(m, c) ==> p(Grown(m, v), Step(c, v))
    ensures p(Message(values), Polymod(values))
  {
    if values != [] {
      Carried(p, values[..|values| - 1]);
    }
  }

  /** The register after any values is the remainder of their polynomial modulo the generator polynomial, and nothing
  else of its size is. */
  lemma PolymodIsRemainder(values: seq<nat>, r: Reg)
    ensures r == Polymod(values) <==> Remains(Message(values), r)
  {
    UnitRemains();
    forall m: Bits, c: Reg, v: nat | |m| >= 30 && OnlyRemains(m, c)
      ensures OnlyRemains(Grown(m, v), Step(c, v))
    {
      OnlyRemainsNext(m, c, v);
    }
    Carried((m: Bits, c: Reg) => OnlyRemains(m, c), values);
  }

  lemma EntersBelow(m: Bits, u: Bits)
    requires |u| == 5 && |m| >= 30
    ensures Xor(m + Zero(5), Zero(|m| - 25) + Pad(u)) == m + u
  {
  }

  /** Five-bit values are the coefficients as they are. */
  lemma {:induction false} MessageOfSymbols(values: seq<nat>)
    requires Groups(values, 5)
    ensures Message(values) == UNIT + Tail(values)
  {
    if values == [] {
      assert UNIT + [] == UNIT;
    } else {
      var front, v := values[..|values| - 1], values[|values| - 1];
      MessageOfSymbols(front);
      SymbolJoins(Message(front), UNIT, Tail(front), v);
    }
  }

  lemma SymbolJoins(m: Bits, a: Bits, b: Bits, v: nat)
    requires Fits(v, 5) && |m| >= 30 && m == a + b
    ensures Grown(m, v) == a + (b + ToBits(v, 5))
  {
    ShortSymbol(v);
    EntersBelow(m, ToBits(v, 5));
  }

  // ---- texts that verify

  /** Every character of a prefix enters twice: what is above its low five bits, and, after a zero, these. */
  lemma PrefixExpands(hrp: string, i: nat)
    requires i < |hrp| && hrp[i] as int < 0x2000
    ensures var x := HrpExpand(hrp);
      && |x| == 2 * |hrp| + 1 && x[|hrp|] == 0
      && x[|hrp| + 1 + i] < 32 && hrp[i] as int == 32 * x[i] + x[|hrp| + 1 + i]
  {
  }

  /** A text verifies exactly if what it spells, behind its prefix, leaves one. */
  lemma VerifiesIffUnit(hrp: string, data: seq<nat>)
    ensures Verifies(hrp, data) <==> Remains(Message(HrpExpand(hrp) + data), UNIT)
  {
    PolymodIsRemainder(HrpExpand(hrp) + data, UNIT);
  }
}
