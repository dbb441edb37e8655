/** The field of 32 elements that BIP-173 computes in, and the generators of the checksum as multiples in it. An element
is five bits, the coefficients of a polynomial in a root `a` of a^5 = a^3 + 1, most significant first. */
module GaloisField {
  import opened BitGroups
  import opened Registers
  import opened ChecksumStep

  /** Times `a`. */
  function Double(s: Bits): (d: Bits)
    requires |s| == 5
    ensures |d| == 5
  {
    [s[1], s[2] != s[0], s[3], s[4], s[0]]
  }

  /** The product, by the bits of `t`. */
  function Times(s: Bits, t: Bits): (p: Bits)
    requires |s| == 5
    ensures |p| == 5
  {
    if t == [] then Zero(5) else Xor(Double(Times(s, t[..|t| - 1])), Scaled(t[|t| - 1], s))
  }

  function Scaled(on: bool, s: Bits): (r: Bits)
    ensures |r| == |s|
  {
    if on then s else Zero(|s|)
  }

  /** The products of several numbers with `t`, one after the other. */
  function Products(c: seq<nat>, t: Bits): (p: Bits)
    ensures |p| == 5 * |c|
  {
    if c == [] then [] else Products(c[..|c| - 1], t) + Times(ToBits(c[|c| - 1], 5), t)
  }

  lemma DoubleXor(s: Bits, t: Bits)
    requires |s| == |t| == 5
    ensures Double(Xor(s, t)) == Xor(Double(s), Double(t))
  {
  }

  lemma DoubleScaled(on: bool, s: Bits)
    requires |s| == 5
    ensures Double(Scaled(on, s)) == Scaled(on, Double(s))
  {
    assert Double(Zero(5)) == Zero(5);
  }

  lemma TimesNext(s: Bits, t: Bits, b: bool)
    requires |s| == 5
    ensures Times(s, t + [b]) == Xor(Double(Times(s, t)), Scaled(b, s))
  {
    assert (t + [b])[..|t|] == t;
  }

  lemma {:induction false} TimesOfDouble(s: Bits, t: Bits)
    requires |s| == 5
    ensures Times(Double(s), t) == Double(Times(s, t))
    decreases |t|
  {
    if t == [] {
      assert Double(Zero(5)) == Zero(5);
    } else {
      var front, b := t[..|t| - 1], t[|t| - 1];
      TimesOfDouble(s, front);
      DoubleXor(Double(Times(s, front)), Scaled(b, s));
      DoubleScaled(b, s);
    }
  }

  /** The last bit selects the factor itself, the others multiples of its double. */
  lemma TimesSelects(s: Bits, t: Bits, b: bool)
    requires |s| == 5
    ensures Times(s, t + [b]) == Xor(Times(Double(s), t), Scaled(b, s))
  {
    TimesNext(s, t, b);
    TimesOfDouble(s, t);
  }

  lemma Chain(a: Bits, b: Bits, c: Bits, d: Bits, e: Bits, p: Bits, q: Bits, r: Bits, s: Bits)
    requires |a| == |b| == |c| == |d| == |e| == |p| == |q| == |r| == |s| == 5
    requires p == Xor(Zero(5), e) && q == Xor(p, d) && r == Xor(q, c) && s == Xor(r, b)
    ensures Xor(s, a) == Xor(Xor(Xor(Xor(a, b), c), d), e)
  {
  }

  lemma FiveBits(t: Bits)
    requires |t| == 5
    ensures t == t[..4] + [t[4]] && t[..4] == t[..3] + [t[3]] && t[..3] == t[..2] + [t[2]]
    ensures t[..2] == t[..1] + [t[1]] && t[..1] == [] + [t[0]]
  {
  }

  /** Five bits select from five multiples. */
  lemma TimesFive(s0: Bits, s1: Bits, s2: Bits, s3: Bits, s4: Bits, t: Bits)
    requires |s0| == |s1| == |s2| == |s3| == |s4| == |t| == 5
    requires s1 == Double(s0) && s2 == Double(s1) && s3 == Double(s2) && s4 == Double(s3)
    ensures Times(s0, t) == Xor(Xor(Xor(Xor(Scaled(t[4], s0), Scaled(t[3], s1)), Scaled(t[2], s2)), Scaled(t[1], s3)),
                                Scaled(t[0], s4))
  {
    var p, q := Times(s4, t[..1]), Times(s3, t[..2]);
    var r, s := Times(s2, t[..3]), Times(s1, t[..4]);
    FiveBits(t);
    TimesSelects(s0, t[..4], t[4]);
    TimesSelects(s1, t[..3], t[3]);
    TimesSelects(s2, t[..2], t[2]);
    TimesSelects(s3, t[..1], t[1]);
    TimesSelects(s4, [], t[0]);
    Chain(Scaled(t[4], s0), Scaled(t[3], s1), Scaled(t[2], s2), Scaled(t[1], s3), Scaled(t[0], s4), p, q, r, s);
  }

  // ---- the generators

  /** The coefficients below x^6 of the generator polynomial of BIP-173. */
  const GENERATOR: seq<nat> := [29, 22, 20, 21, 29, 18]

  /** The bits of a number spelled by groups are the bits of the groups. */
  lemma {:induction false} ToBitsJoin(h: nat, v: nat, n: nat, m: nat)
    requires Fits(v, m)
    ensures ToBits(Shl(h, m) + v, n + m) == ToBits(h, n) + ToBits(v, m)
    decreases m
  {
    if m > 0 {
      Halves(h, v, m);
      FitsHalf(v, m);
      ToBitsJoin(h, v / 2, n, m - 1);
    }
  }

  lemma {:induction false} ValBits(c: seq<nat>)
    requires Groups(c, 5)
    ensures ToBits(Val(c, 5), 5 * |c|) == Tail(c)
  {
    if c != [] {
      var front := c[..|c| - 1];
      ValBits(front);
      ToBitsJoin(Val(front, 5), c[|c| - 1], 5 * |front|, 5);
    }
  }

  lemma {:induction false} TailSymbol(c: seq<nat>, k: nat)
    requires k < |c|
    ensures Tail(c)[5 * k..5 * k + 5] == ToBits(c[k], 5)
  {
    var front := c[..|c| - 1];
    if k < |front| {
      TailSymbol(front, k);
      assert Tail(c)[5 * k..5 * k + 5] == Tail(front)[5 * k..5 * k + 5];
    } else {
      assert Tail(c)[5 * k..5 * k + 5] == ToBits(c[k], 5);
    }
  }

  lemma ShlFive(x: nat)
    ensures Shl(x, 5) == 32 * x
  {
    assert Shl(x, 1) == 2 * x;
    assert Shl(x, 2) == 4 * x;
    assert Shl(x, 3) == 8 * x;
    assert Shl(x, 4) == 16 * x;
  }

  lemma ValNext(c: seq<nat>, i: nat)
    requires i < |c|
    ensures Val(c[..i + 1], 5) == 32 * Val(c[..i], 5) + c[i]
  {
    assert c[..i + 1][..i] == c[..i];
    ShlFive(Val(c[..i], 5));
  }

  lemma SixGroups(c: seq<nat>)
    requires |c| == 6
    ensures Val(c, 5) == 32 * (32 * (32 * (32 * (32 * c[0] + c[1]) + c[2]) + c[3]) + c[4]) + c[5]
  {
    ValNext(c, 0);
    ValNext(c, 1);
    ValNext(c, 2);
    ValNext(c, 3);
    ValNext(c, 4);
    ValNext(c, 5);
    assert c[..0] == [] && c[..6] == c;
  }

  /** The generators, as the code has them, spelled in field elements: each is the one before times `a`. */
  const ROWS: seq<seq<nat>> := [
    GENERATOR, [19, 5, 1, 3, 19, 13], [15, 10, 2, 6, 15, 26], [30, 20, 4, 12, 30, 29], [21, 1, 8, 24, 21, 19]]

  function Generator(j: nat): nat
    requires j < 5
  {
    [G0, G1, G2, G3, G4][j]
  }

  lemma Symbols32(c: seq<nat>)
    requires forall i :: 0 <= i < |c| ==> c[i] < 32
    ensures Groups(c, 5)
  {
    assert Shl(1, 5) == 32 by { ShlFive(1); }
  }

  lemma RowSpelled(j: nat)
    requires j < 5
    ensures |ROWS[j]| == 6 && ToBits(Generator(j), 30) == Tail(ROWS[j])
  {
    var c := ROWS[j];
    SixGroups(c);
    Symbols32(c);
    ValBits(c);
  }

  lemma BitsOfFive(v: nat, b4: bool, b3: bool, b2: bool, b1: bool, b0: bool)
    requires v == 16 * Bit(b4) + 8 * Bit(b3) + 4 * Bit(b2) + 2 * Bit(b1) + Bit(b0)
    ensures ToBits(v, 5) == [b4, b3, b2, b1, b0]
  {
    LastTwo(0, b4, b3, 2);
    LastThree(2 * Bit(b4) + Bit(b3), b2, b1, b0, 5);
    assert ToBits(0, 0) == [];
  }

  /** Times `a`, on the numbers the elements are written as. */
  function DoubleOf(v: nat): nat {
    16 * Bit(v % 16 >= 8) + 8 * Bit((v % 8 >= 4) != (v >= 16)) + 4 * Bit(v % 4 >= 2) + 2 * Bit(v % 2 == 1)
    + Bit(v >= 16)
  }

  lemma EightOf(v: nat)
    requires v < 32
    ensures v % 16 == 8 * Bit(v % 16 >= 8) + v % 8
  {
  }

  lemma FourOf(v: nat)
    requires v < 32
    ensures v % 8 == 4 * Bit(v % 8 >= 4) + v % 4
  {
  }

  lemma Binary(v: nat)
    requires v < 32
    ensures v == 16 * Bit(v >= 16) + 8 * Bit(v % 16 >= 8) + 4 * Bit(v % 8 >= 4) + 2 * Bit(v % 4 >= 2) + Bit(v % 2 == 1)
  {
    assert v == 16 * Bit(v >= 16) + v % 16;
    EightOf(v);
    FourOf(v);
    assert v % 4 == 2 * Bit(v % 4 >= 2) + v % 2;
  }

  lemma DoubleNumber(v: nat)
    requires v < 32
    ensures Double(ToBits(v, 5)) == ToBits(DoubleOf(v), 5)
  {
    Binary(v);
    BitsOfFive(v, v >= 16, v % 16 >= 8, v % 8 >= 4, v % 4 >= 2, v % 2 == 1);
    BitsOfFive(DoubleOf(v), v % 16 >= 8, (v % 8 >= 4) != (v >= 16), v % 4 >= 2, v % 2 == 1, v >= 16);
  }

  lemma RowsDouble(j: nat, k: nat)
    requires j < 4 && k < 6
    ensures ROWS[j][k] < 32 && ROWS[j + 1][k] == DoubleOf(ROWS[j][k])
  {
  }

  /** Row `j` at place `k` is the coefficient there, doubled `j` times. */
  ghost function Element(j: nat, k: nat): (s: Bits)
    requires j < 5 && k < 6
    ensures |s| == 5
  {
    ToBits(ROWS[j][k], 5)
  }

  lemma ElementsDouble(k: nat)
    requires k < 6
    ensures Element(1, k) == Double(Element(0, k)) && Element(2, k) == Double(Element(1, k))
    ensures Element(3, k) == Double(Element(2, k)) && Element(4, k) == Double(Element(3, k))
  {
    forall j | 0 <= j < 4
      ensures Element(j + 1, k) == Double(Element(j, k))
    {
      RowsDouble(j, k);
      DoubleNumber(ROWS[j][k]);
    }
    assert Element(0 + 1, k) == Double(Element(0, k)) && Element(1 + 1, k) == Double(Element(1, k));
    assert Element(2 + 1, k) == Double(Element(2, k)) && Element(3 + 1, k) == Double(Element(3, k));
  }

  lemma TapElement(on: bool, j: nat, k: nat)
    requires j < 5 && k < 6
    ensures Tap(on, Generator(j))[5 * k..5 * k + 5] == Scaled(on, Element(j, k))
  {
    RowSpelled(j);
    TailSymbol(ROWS[j], k);
    assert Zero(30)[5 * k..5 * k + 5] == Zero(5);
  }

  lemma XorPart(a: Bits, b: Bits, i: nat)
    requires |a| == |b| && i + 5 <= |a|
    ensures Xor(a, b)[i..i + 5] == Xor(a[i..i + 5], b[i..i + 5])
  {
  }

  lemma XorParts(a: Bits, b: Bits, c: Bits, d: Bits, e: Bits, i: nat)
    requires |a| == |b| == |c| == |d| == |e| && i + 5 <= |a|
    ensures Xor(Xor(Xor(Xor(a, b), c), d), e)[i..i + 5] ==
            Xor(Xor(Xor(Xor(a[i..i + 5], b[i..i + 5]), c[i..i + 5]), d[i..i + 5]), e[i..i + 5])
  {
    XorPart(a, b, i);
    XorPart(Xor(a, b), c, i);
    XorPart(Xor(Xor(a, b), c), d, i);
    XorPart(Xor(Xor(Xor(a, b), c), d), e, i);
  }

  /** What is fed back at one of the six places, as a choice between multiples of the coefficient there. */
  lemma FeedbackPart(t: Bits, k: nat)
    requires |t| == 5 && k < 6
    ensures Feedback(t)[5 * k..5 * k + 5] ==
            Xor(Xor(Xor(Xor(Scaled(t[4], Element(0, k)), Scaled(t[3], Element(1, k))), Scaled(t[2], Element(2, k))),
                    Scaled(t[1], Element(3, k))), Scaled(t[0], Element(4, k)))
  {
    var a, b, c := Tap(t[4], G0), Tap(t[3], G1), Tap(t[2], G2);
    var d, e := Tap(t[1], G3), Tap(t[0], G4);
    XorParts(a, b, c, d, e, 5 * k);
    TapElement(t[4], 0, k);
    TapElement(t[3], 1, k);
    TapElement(t[2], 2, k);
    TapElement(t[1], 3, k);
    TapElement(t[0], 4, k);
    assert Feedback(t) == Xor(Xor(Xor(Xor(a, b), c), d), e);
  }

  /** What is fed back there is the element that leaves the register times the coefficient. */
  lemma FeedbackElement(t: Bits, k: nat)
    requires |t| == 5 && k < 6
    ensures Feedback(t)[5 * k..5 * k + 5] == Times(Element(0, k), t)
  {
    FeedbackPart(t, k);
    ElementsDouble(k);
    TimesFive(Element(0, k), Element(1, k), Element(2, k), Element(3, k), Element(4, k), t);
  }

  lemma {:induction false} Product(c: seq<nat>, t: Bits, k: nat)
    requires k < |c|
    ensures Products(c, t)[5 * k..5 * k + 5] == Times(ToBits(c[k], 5), t)
  {
    var front := c[..|c| - 1];
    if k < |front| {
      Product(front, t, k);
      assert Products(c, t)[5 * k..5 * k + 5] == Products(front, t)[5 * k..5 * k + 5];
    } else {
      assert Products(c, t)[5 * k..5 * k + 5] == Times(ToBits(c[k], 5), t);
    }
  }

  lemma PartsAgree(a: Bits, b: Bits)
    requires |a| == |b| == 30 && forall k :: 0 <= k < 6 ==> a[5 * k..5 * k + 5] == b[5 * k..5 * k + 5]
    ensures a == b
  {
    forall i | 0 <= i < 30
      ensures a[i] == b[i]
    {
      var k := i / 5;
      assert a[5 * k..5 * k + 5][i - 5 * k] == a[i] && b[5 * k..5 * k + 5][i - 5 * k] == b[i];
    }
  }

  /** The feedback is the generator polynomial below x^6, times the element that leaves. */
  lemma FeedbackIsMultiple(t: Bits)
    requires |t| == 5
    ensures Feedback(t) == Products(GENERATOR, t)
  {
    var f, g := Feedback(t), Products(GENERATOR, t);
    forall k | 0 <= k < 6
      ensures f[5 * k..5 * k + 5] == g[5 * k..5 * k + 5]
    {
      FeedbackElement(t, k);
      Product(GENERATOR, t, k);
    }
    PartsAgree(f, g);
  }
}
