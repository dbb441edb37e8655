/** One step of the BIP-173 checksum. The 32-bit checksum variable of the code never uses its two top bits; it is the
sequence of its other thirty, most significant first. */
module ChecksumStep {
  import opened BitGroups
  import opened Registers

  function Zero(n: nat): Bits {
    seq(n, _ => false)
  }

  /** Exclusive or on registers. */
  function Xor(a: Bits, b: Bits): (s: Bits)
    requires |a| == |b|
    ensures |s| == |a|
  {
    seq(|a|, i requires 0 <= i < |a| => a[i] != b[i])
  }

  lemma XorCancels(a: Bits, b: Bits)
    requires |a| == |b|
    ensures Xor(Xor(a, b), b) == a && Xor(Xor(a, b), a) == b
  {
  }

  lemma XorAssociates(a: Bits, b: Bits, c: Bits)
    requires |a| == |b| == |c|
    ensures Xor(Xor(a, b), c) == Xor(a, Xor(b, c)) == Xor(Xor(a, c), b)
  {
  }

  lemma XorZero(a: Bits)
    ensures Xor(a, Zero(|a|)) == a
  {
  }

  // ---- the register

  const G0: nat := 0x3b6a57b2
  const G1: nat := 0x26508e6d
  const G2: nat := 0x1ea119fa
  const G3: nat := 0x3d4233dd
  const G4: nat := 0x2a1462b3

  function Tap(on: bool, g: nat): (s: Bits)
    ensures |s| == 30
  {
    if on then ToBits(g, 30) else Zero(30)
  }

  /** The generators selected by the five bits that leave the register. */
  function Feedback(top: Bits): (s: Bits)
    requires |top| == 5
    ensures |s| == 30
  {
    Xor(Xor(Xor(Xor(Tap(top[4], G0), Tap(top[3], G1)), Tap(top[2], G2)),
            Tap(top[1], G3)), Tap(top[0], G4))
  }

  /** One step of the register on a zero symbol. */
  function Advance(c: Bits): (s: Bits)
    requires |c| == 30
    ensures |s| == 30
  {
    Xor(c[5..] + Zero(5), Feedback(c[..5]))
  }

  /** Bits moved to the low end of a register. */
  function Pad(u: Bits): (s: Bits)
    requires |u| <= 30
    ensures |s| == 30
  {
    Zero(30 - |u|) + u
  }

  /** A change in the low 25 bits does not reach the feedback: it just moves up. */
  lemma AdvanceLow(a: Bits, u: Bits)
    requires |a| == 30 && |u| <= 25
    ensures Advance(Xor(a, Pad(u))) == Xor(Advance(a), Pad(u + Zero(5)))
  {
    var b := Xor(a, Pad(u));
    assert b[..5] == a[..5];
    var shifted, moved, f := a[5..] + Zero(5), Pad(u + Zero(5)), Feedback(a[..5]);
    assert b[5..] + Zero(5) == Xor(shifted, moved);
    XorAssociates(shifted, moved, f);
  }

  /** A symbol put in below shifted bits just joins them. */
  lemma XorEnters(a: Bits, u: Bits, v: nat)
    requires |a| == 30 && |u| <= 25 && Fits(v, 5)
    ensures Xor(Xor(a, Pad(u + Zero(5))), ToBits(v, 30)) == Xor(a, Pad(u + ToBits(v, 5)))
  {
    ShortSymbol(v);
    XorAssociates(a, Pad(u + Zero(5)), Pad(ToBits(v, 5)));
    assert Xor(Pad(u + Zero(5)), Pad(ToBits(v, 5))) == Pad(u + ToBits(v, 5));
  }

  lemma {:induction false} ToBitsPads(x: nat, n: nat, m: nat)
    requires Fits(x, n) && n <= m
    ensures ToBits(x, m) == Zero(m - n) + ToBits(x, n)
    decreases m
  {
    if n == 0 {
      if m > 0 {
        ToBitsPads(x / 2, 0, m - 1);
        assert Zero(m) == Zero(m - 1) + [false];
      }
    } else {
      FitsHalf(x, n);
      ToBitsPads(x / 2, n - 1, m - 1);
    }
  }

  lemma ShortSymbol(v: nat)
    requires Fits(v, 5)
    ensures ToBits(v, 30) == Pad(ToBits(v, 5))
  {
    ToBitsPads(v, 5, 30);
  }

  // ---- nothing is lost

  function Bit(b: bool): nat {
    if b then 1 else 0
  }

  lemma ToBitsDouble(x: nat, b: bool, n: nat)
    requires n > 0
    ensures ToBits(2 * x + Bit(b), n) == ToBits(x, n - 1) + [b]
  {
    assert (2 * x + Bit(b)) / 2 == x;
  }

  lemma LastFive(g: nat, h: nat, b4: bool, b3: bool, b2: bool, b1: bool, b0: bool)
    requires g == 32 * h + 16 * Bit(b4) + 8 * Bit(b3) + 4 * Bit(b2) + 2 * Bit(b1) + Bit(b0)
    ensures ToBits(g, 30)[25..] == [b4, b3, b2, b1, b0]
  {
    var y := 4 * h + 2 * Bit(b4) + Bit(b3);
    assert ToBits(y, 27) == ToBits(h, 25) + [b4, b3] by {
      LastTwo(h, b4, b3, 27);
    }
    assert ToBits(g, 30) == ToBits(y, 27) + [b2, b1, b0] by {
      LastThree(y, b2, b1, b0, 30);
    }
    AfterFive(ToBits(g, 30), ToBits(h, 25), b4, b3, b2, b1, b0);
  }

  lemma LastThree(x: nat, b2: bool, b1: bool, b0: bool, n: nat)
    requires n > 2
    ensures ToBits(8 * x + 4 * Bit(b2) + 2 * Bit(b1) + Bit(b0), n) == ToBits(x, n - 3) + [b2, b1, b0]
  {
    var y := 2 * x + Bit(b2);
    ToBitsDouble(x, b2, n - 2);
    LastTwo(y, b1, b0, n);
    assert 4 * y + 2 * Bit(b1) + Bit(b0) == 8 * x + 4 * Bit(b2) + 2 * Bit(b1) + Bit(b0);
  }

  lemma LastTwo(x: nat, b1: bool, b0: bool, n: nat)
    requires n > 1
    ensures ToBits(4 * x + 2 * Bit(b1) + Bit(b0), n) == ToBits(x, n - 2) + [b1, b0]
  {
    ToBitsDouble(x, b1, n - 1);
    ToBitsDouble(2 * x + Bit(b1), b0, n);
    assert 2 * (2 * x + Bit(b1)) + Bit(b0) == 4 * x + 2 * Bit(b1) + Bit(b0);
  }

  lemma AfterFive(s: Bits, t: Bits, b4: bool, b3: bool, b2: bool, b1: bool, b0: bool)
    requires |t| == 25 && s == t + [b4, b3] + [b2, b1, b0]
    ensures s[25..] == [b4, b3, b2, b1, b0]
  {
  }

  lemma Columns(a: bool, b: bool, c: bool, d: bool, e: bool)
    ensures Tap(a, G0)[25..] == [a, false, false, a, false]
    ensures Tap(b, G1)[25..] == [false, b, b, false, b]
    ensures Tap(c, G2)[25..] == [c, c, false, c, false]
    ensures Tap(d, G3)[25..] == [d, d, d, false, d]
    ensures Tap(e, G4)[25..] == [e, false, false, e, e]
  {
    LastFive(G0, 0x1db52bd, true, false, false, true, false);
    LastFive(G1, 0x1328473, false, true, true, false, true);
    LastFive(G2, 0xf508cf, true, true, false, true, false);
    LastFive(G3, 0x1ea119e, true, true, true, false, true);
    LastFive(G4, 0x150a315, true, false, false, true, true);
    assert Zero(30)[25..] == [false, false, false, false, false];
  }

  lemma XorFive(a: Bits, b: Bits)
    requires |a| == |b| == 5
    ensures Xor(a, b) == [a[0] != b[0], a[1] != b[1], a[2] != b[2], a[3] != b[3], a[4] != b[4]]
  {
  }

  /** The low five bits of the feedback, as a linear map of the five bits that select it. */
  function LowFeedback(t: Bits): Bits
    requires |t| == 5
  {
    [t[4] != (t[2] != (t[1] != t[0])), t[3] != (t[2] != t[1]), t[3] != t[1], t[4] != (t[2] != t[0]),
     t[3] != (t[1] != t[0])]
  }

  lemma XorTail(a: Bits, b: Bits)
    requires |a| == |b| == 30
    ensures Xor(a, b)[25..] == Xor(a[25..], b[25..])
  {
  }

  lemma FeedbackTail(t: Bits)
    requires |t| == 5
    ensures Feedback(t)[25..] == LowFeedback(t)
  {
    var t0, t1, t2 := Tap(t[4], G0), Tap(t[3], G1), Tap(t[2], G2);
    var t3, t4 := Tap(t[1], G3), Tap(t[0], G4);
    Columns(t[4], t[3], t[2], t[1], t[0]);
    var x1 := Xor(t0, t1);
    var x2 := Xor(x1, t2);
    var x3 := Xor(x2, t3);
    TailXor(t0, t1);
    TailXor(x1, t2);
    TailXor(x2, t3);
    TailXor(x3, t4);
  }

  lemma TailXor(a: Bits, b: Bits)
    requires |a| == |b| == 30
    ensures Xor(a, b)[25..] == [a[25..][0] != b[25..][0], a[25..][1] != b[25..][1], a[25..][2] != b[25..][2],
                                a[25..][3] != b[25..][3], a[25..][4] != b[25..][4]]
  {
    XorTail(a, b);
    XorFive(a[25..], b[25..]);
  }

  /** The five low generator columns are independent. */
  lemma LowFeedbackInjective(t: Bits, t': Bits)
    requires |t| == |t'| == 5 && LowFeedback(t) == LowFeedback(t')
    ensures t == t'
  {
    var y, y' := LowFeedback(t), LowFeedback(t');
    assert y[0] == y'[0] && y[1] == y'[1] && y[2] == y'[2] && y[3] == y'[3] && y[4] == y'[4];
  }

  lemma AdvanceTail(c: Bits)
    requires |c| == 30
    ensures Advance(c)[25..] == LowFeedback(c[..5])
  {
    FeedbackTail(c[..5]);
    var f := Feedback(c[..5]);
    XorTail(c[5..] + Zero(5), f);
    assert (c[5..] + Zero(5))[25..] == Zero(5);
    assert Xor(Zero(5), f[25..]) == f[25..];
  }

  lemma AdvanceInjective(c: Bits, d: Bits)
    requires |c| == |d| == 30 && Advance(c) == Advance(d)
    ensures c == d
  {
    AdvanceTail(c);
    AdvanceTail(d);
    LowFeedbackInjective(c[..5], d[..5]);
    var f := Feedback(c[..5]);
    XorCancels(c[5..] + Zero(5), f);
    XorCancels(d[5..] + Zero(5), f);
    assert c[5..] == (c[5..] + Zero(5))[..25] == d[5..];
    assert c == c[..5] + c[5..] && d == d[..5] + d[5..];
  }
}
