/** Regrouping a bit string from groups of one size into groups of another, through the number it spells.

Shifts and masks are defined bit by bit on natural numbers, so that no width is built in; the 32-bit accumulator of
the code is a mask of 32 bits. */
module BitGroups {
  import opened Collections

  /** `x << n` without loss. */
  function Shl(x: nat, n: nat): nat {
    if n == 0 then x else 2 * Shl(x, n - 1)
  }

  /** `x >> n`. */
  function Shr(x: nat, n: nat): nat {
    if n == 0 then x else Shr(x / 2, n - 1)
  }

  /** The low `n` bits of `x`. */
  function Low(x: nat, n: nat): nat {
    if n == 0 then 0 else 2 * Low(x / 2, n - 1) + x % 2
  }

  /** `x` needs at most `n` bits. */
  predicate Fits(x: nat, n: nat) {
    x < Shl(1, n)
  }

  ghost predicate Groups(ds: seq<nat>, b: nat) {
    forall i :: 0 <= i < |ds| ==> Fits(ds[i], b)
  }

  /** The number a sequence of `b`-bit groups spells, most significant first. */
  ghost function Val(ds: seq<nat>, b: nat): nat {
    if ds == [] then 0 else Shl(Val(ds[..|ds| - 1], b), b) + ds[|ds| - 1]
  }

  /** The `n` groups of `b` bits that spell `v`. */
  ghost function Spell(v: nat, n: nat, b: nat): seq<nat>
    decreases n, v
  {
    if n == 0 then [] else Spell(Shr(v, b), n - 1, b) + [Low(v, b)]
  }

  /** Groups needed for `n` bits. */
  function GroupsFor(n: nat, t: nat): nat
    requires t > 0
  {
    (n + t - 1) / t
  }

  /** Regrouping bytes into five-bit symbols, with zero bits added at the end to fill the last group. */
  ghost function Repack(data: seq<nat>): seq<nat> {
    var n := 8 * |data|;
    var m := GroupsFor(n, 5);
    Spell(Shl(Val(data, 8), 5 * m - n), m, 5)
  }

  /** Regrouping symbols into bytes, which must come out even: fewer than five bits left over, all zero. */
  ghost function Unpack(symbols: seq<nat>): Option<seq<nat>> {
    var n := 5 * |symbols|;
    var k := n % 8;
    if k >= 5 || Low(Val(symbols, 5), k) != 0 then None else Some(Spell(Shr(Val(symbols, 5), k), n / 8, 8))
  }

  // ---- shifting and masking

  lemma {:induction false} Halves(x: nat, d: nat, n: nat)
    requires n > 0
    ensures (Shl(x, n) + d) / 2 == Shl(x, n - 1) + d / 2
    ensures (Shl(x, n) + d) % 2 == d % 2
  {
    assert Shl(x, n) == 2 * Shl(x, n - 1);
  }

  lemma {:induction false} FitsHalf(d: nat, n: nat)
    requires n > 0
    ensures Fits(d, n) <==> Fits(d / 2, n - 1)
  {
    assert Shl(1, n) == 2 * Shl(1, n - 1);
  }

  /** A group appended below a number can be taken off again. */
  lemma {:induction false} TakeOff(x: nat, d: nat, n: nat)
    requires Fits(d, n)
    ensures Shr(Shl(x, n) + d, n) == x && Low(Shl(x, n) + d, n) == d
  {
    if n > 0 {
      Halves(x, d, n);
      FitsHalf(d, n);
      TakeOff(x, d / 2, n - 1);
    }
  }

  /** A number is its high part above its low part. */
  lemma {:induction false} PutTogether(x: nat, n: nat)
    ensures x == Shl(Shr(x, n), n) + Low(x, n) && Fits(Low(x, n), n)
  {
    if n > 0 {
      PutTogether(x / 2, n - 1);
      FitsHalf(Low(x, n), n);
    }
  }

  lemma {:induction false} ShlAdds(x: nat, a: nat, b: nat)
    ensures Shl(x, a + b) == Shl(Shl(x, a), b)
  {
    if b > 0 {
      ShlAdds(x, a, b - 1);
      assert a + b - 1 == a + (b - 1);
    }
  }

  lemma {:induction false} AppendFits(x: nat, a: nat, d: nat, b: nat)
    requires Fits(x, a) && Fits(d, b)
    ensures Fits(Shl(x, b) + d, a + b)
  {
    if b > 0 {
      Halves(x, d, b);
      FitsHalf(d, b);
      AppendFits(x, a, d / 2, b - 1);
      FitsHalf(Shl(x, b) + d, a + b);
    }
  }

  lemma {:induction false} ShrFits(x: nat, a: nat, b: nat)
    requires Fits(x, a + b)
    ensures Fits(Shr(x, b), a)
  {
    if b > 0 {
      FitsHalf(x, a + b);
      ShrFits(x / 2, a, b - 1);
    }
  }

  lemma {:induction false} LowOfLow(x: nat, n: nat, k: nat)
    requires k <= n
    ensures Low(Low(x, n), k) == Low(x, k)
  {
    if k > 0 {
      LowOfLow(x / 2, n - 1, k - 1);
    }
  }

  // ---- spelling

  lemma {:induction false} SpellVal(ds: seq<nat>, b: nat)
    requires Groups(ds, b)
    ensures Spell(Val(ds, b), |ds|, b) == ds
  {
    if ds != [] {
      var front, last := ds[..|ds| - 1], ds[|ds| - 1];
      TakeOff(Val(front, b), last, b);
      SpellVal(front, b);
    }
  }

  lemma {:induction false} SpellGroups(v: nat, n: nat, b: nat)
    ensures |Spell(v, n, b)| == n && Groups(Spell(v, n, b), b)
    decreases n
  {
    if n > 0 {
      SpellGroups(Shr(v, b), n - 1, b);
      PutTogether(v, b);
    }
  }

  lemma {:induction false} ValFits(ds: seq<nat>, b: nat, n: nat)
    requires Groups(ds, b) && n == |ds| * b
    ensures Fits(Val(ds, b), n)
  {
    if ds != [] {
      var front, last := ds[..|ds| - 1], ds[|ds| - 1];
      assert n - b == |front| * b;
      ValFits(front, b, n - b);
      AppendFits(Val(front, b), n - b, last, b);
    }
  }

  lemma {:induction false} ValSpell(v: nat, m: nat, b: nat, n: nat)
    requires n == m * b && Fits(v, n)
    ensures Val(Spell(v, m, b), b) == v
    decreases m
  {
    if m > 0 {
      assert n - b == (m - 1) * b;
      ShrFits(v, n - b, b);
      ValSpell(Shr(v, b), m - 1, b, n - b);
      PutTogether(v, b);
      var ds := Spell(v, m, b);
      assert ds[..|ds| - 1] == Spell(Shr(v, b), m - 1, b);
    }
  }

  // ---- bytes and five-bit symbols

  lemma PadSize(len: nat)
    ensures 0 <= 5 * GroupsFor(8 * len, 5) - 8 * len < 5
    ensures 5 * GroupsFor(8 * len, 5) % 8 == 5 * GroupsFor(8 * len, 5) - 8 * len
    ensures 5 * GroupsFor(8 * len, 5) / 8 == len
  {
  }

  lemma RepackSpells(data: seq<nat>, k: nat)
    requires Groups(data, 8) && k == 5 * GroupsFor(8 * |data|, 5) - 8 * |data|
    ensures Groups(Repack(data), 5) && |Repack(data)| == GroupsFor(8 * |data|, 5)
    ensures Val(Repack(data), 5) == Shl(Val(data, 8), k)
  {
    var m, v := GroupsFor(8 * |data|, 5), Val(data, 8);
    SpellGroups(Shl(v, k), m, 5);
    ValFits(data, 8, 8 * |data|);
    ShlZero(1, k);
    AppendFits(v, 8 * |data|, 0, k);
    ValSpell(Shl(v, k), m, 5, 5 * m);
  }

  /** Bytes regrouped into symbols come back unchanged, for byte strings of any length. */
  lemma BytesSurvive(data: seq<nat>)
    requires Groups(data, 8)
    ensures Groups(Repack(data), 5) && |Repack(data)| == GroupsFor(8 * |data|, 5)
    ensures Unpack(Repack(data)) == Some(data)
  {
    PadSize(|data|);
    var k := 5 * GroupsFor(8 * |data|, 5) - 8 * |data|;
    RepackSpells(data, k);
    ShlZero(1, k);
    SpanIs(|data|, 8);
    SpanIs(|Repack(data)|, 5);
    SplitIsUnpacked(Repack(data), data, k, 0);
  }

  /** Symbols that regroup into bytes at all are the regrouping of those bytes: there is no second spelling. */
  lemma SymbolsSurvive(symbols: seq<nat>, data: seq<nat>)
    requires Groups(symbols, 5) && Unpack(symbols) == Some(data)
    ensures Groups(data, 8) && Repack(data) == symbols
  {
    var n := 5 * |symbols|;
    var m, k := n / 8, n % 8;
    var v := Val(symbols, 5);
    SpellGroups(Shr(v, k), m, 8);
    PutTogether(v, k);
    ValFits(symbols, 5, n);
    ShrFits(v, 8 * m, k);
    ValSpell(Shr(v, k), m, 8, 8 * m);
    assert GroupsFor(8 * m, 5) == |symbols|;
    SpellVal(symbols, 5);
  }

  // ---- the loop, with its 32-bit accumulator

  /** Shifting in a group: the pending bits move up, the new group fills the gap. */
  lemma {:induction false} ShiftIn(acc: nat, g: nat, bits: nat, f: nat)
    requires Fits(g, f)
    ensures Low(Shl(acc, f) + g, bits + f) == Shl(Low(acc, bits), f) + g
  {
    if f > 0 {
      Halves(acc, g, f);
      FitsHalf(g, f);
      ShiftIn(acc, g / 2, bits, f - 1);
      Halves(Low(acc, bits), g, f);
    }
  }

  /** Taking a group off the top of the pending bits. */
  lemma {:induction false} SplitOff(acc: nat, bits: nat, t: nat)
    ensures Low(acc, bits + t) == Shl(Low(Shr(acc, bits), t), bits) + Low(acc, bits)
  {
    if bits > 0 {
      SplitOff(acc / 2, bits - 1, t);
    }
  }

  /** The number of bits in `n` groups. */
  ghost function Span(n: nat, b: nat): nat {
    if n == 0 then 0 else Span(n - 1, b) + b
  }

  lemma {:induction false} SpanIs(n: nat, b: nat)
    ensures Span(n, b) == n * b
  {
    if n > 0 {
      SpanIs(n - 1, b);
      assert n * b == (n - 1) * b + b;
    }
  }

  /** Loop state: the groups written so far and the low `bits` bits of the accumulator spell what has been read. */
  ghost predicate Reading(read: seq<nat>, f: nat, out: seq<nat>, t: nat, acc: nat, bits: nat) {
    && Span(|read|, f) == Span(|out|, t) + bits
    && Groups(out, t)
    && Val(read, f) == Shl(Val(out, t), bits) + Low(acc, bits)
  }

  lemma ReadVal(read: seq<nat>, g: nat, f: nat, high: nat, acc: nat, bits: nat)
    requires Val(read, f) == Shl(high, bits) + Low(acc, bits) && Fits(g, f) && bits + f <= 32
    ensures Val(read + [g], f) == Shl(high, bits + f) + Low(Low(Shl(acc, f) + g, 32), bits + f)
  {
    var next := read + [g];
    assert next[..|next| - 1] == read;
    ShiftIn(acc, g, bits, f);
    LowOfLow(Shl(acc, f) + g, 32, bits + f);
    ShlSum(Shl(high, bits), Low(acc, bits), f);
    ShlAdds(high, bits, f);
  }

  lemma ReadGroup(read: seq<nat>, g: nat, f: nat, out: seq<nat>, t: nat, acc: nat, bits: nat)
    requires Reading(read, f, out, t, acc, bits) && Fits(g, f) && bits + f <= 32
    ensures Reading(read + [g], f, out, t, Low(Shl(acc, f) + g, 32), bits + f)
  {
    ReadVal(read, g, f, Val(out, t), acc, bits);
  }

  lemma {:induction false} ShlSum(x: nat, y: nat, n: nat)
    ensures Shl(x + y, n) == Shl(x, n) + Shl(y, n)
  {
    if n > 0 {
      ShlSum(x, y, n - 1);
    }
  }

  lemma WriteGroup(read: seq<nat>, f: nat, out: seq<nat>, t: nat, acc: nat, bits: nat)
    requires Reading(read, f, out, t, acc, bits + t)
    ensures Reading(read, f, out + [Low(Shr(acc, bits), t)], t, acc, bits)
  {
    var g := Low(Shr(acc, bits), t);
    var next := out + [g];
    assert next[..|next| - 1] == out;
    PutTogether(Shr(acc, bits), t);
    SplitOff(acc, bits, t);
    ShlSum(Shl(Val(out, t), t), g, bits);
    ShlAdds(Val(out, t), t, bits);
    assert t + bits == bits + t;
  }

  lemma {:induction false} ShlZero(x: nat, n: nat)
    ensures Shl(x, n) == 0 <==> x == 0
  {
    if n > 0 {
      ShlZero(x, n - 1);
    }
  }

  /** The last group, filled up with zero bits. */
  lemma PadGroup(acc: nat, bits: nat, t: nat)
    requires bits <= t <= 32
    ensures Low(Low(Shl(acc, t - bits), 32), t) == Shl(Low(acc, bits), t - bits)
    ensures Fits(Shl(Low(acc, bits), t - bits), t)
  {
    LowOfLow(Shl(acc, t - bits), 32, t);
    ShlZero(1, t - bits);
    ShiftIn(acc, 0, bits, t - bits);
    PutTogether(acc, bits);
    AppendFits(Low(acc, bits), bits, 0, t - bits);
  }

  /** `out` spells `data` with `k` zero bits behind it. */
  ghost predicate Padded(data: seq<nat>, f: nat, out: seq<nat>, t: nat, k: nat) {
    Span(|out|, t) == Span(|data|, f) + k && Groups(out, t) && Val(out, t) == Shl(Val(data, f), k)
  }

  /** `data` spells `out` with the `k` bits `low` behind it. */
  ghost predicate Split(data: seq<nat>, f: nat, out: seq<nat>, t: nat, k: nat, low: nat) {
    Span(|data|, f) == Span(|out|, t) + k && Groups(out, t) && Fits(low, k) && Val(data, f) == Shl(Val(out, t), k) + low
  }

  lemma PaddedVal(v: nat, out: seq<nat>, t: nat, low: nat, bits: nat)
    requires v == Shl(Val(out, t), bits) + low && bits <= t
    ensures Val(out + [Shl(low, t - bits)], t) == Shl(v, t - bits)
  {
    var full := out + [Shl(low, t - bits)];
    assert full[..|full| - 1] == out;
    ShlSum(Shl(Val(out, t), bits), low, t - bits);
    ShlAdds(Val(out, t), bits, t - bits);
  }

  lemma PaddedEnd(data: seq<nat>, f: nat, out: seq<nat>, t: nat, acc: nat, bits: nat)
    requires Reading(data, f, out, t, acc, bits) && 0 < bits < t <= 32
    ensures Padded(data, f, out + [Low(Low(Shl(acc, t - bits), 32), t)], t, t - bits)
  {
    PadGroup(acc, bits, t);
    PaddedVal(Val(data, f), out, t, Low(acc, bits), bits);
  }

  lemma SplitEnd(data: seq<nat>, f: nat, out: seq<nat>, t: nat, acc: nat, bits: nat)
    requires Reading(data, f, out, t, acc, bits) && bits < t <= 32
    ensures Split(data, f, out, t, bits, Low(acc, bits))
    ensures Low(Low(Shl(acc, t - bits), 32), t) == 0 <==> Low(acc, bits) == 0
  {
    PutTogether(acc, bits);
    PadGroup(acc, bits, t);
    ShlZero(Low(acc, bits), t - bits);
  }

  /** Bytes padded into symbols are repacked ... */
  lemma PaddedIsRepacked(data: seq<nat>, out: seq<nat>, k: nat)
    requires Padded(data, 8, out, 5, k) && k < 5
    ensures out == Repack(data)
  {
    SpanIs(|data|, 8);
    SpanIs(|out|, 5);
    assert |out| == GroupsFor(8 * |data|, 5);
    SpellVal(out, 5);
  }

  /** ... and symbols split into bytes are unpacked, if what is left over is short and zero. */
  lemma SplitIsUnpacked(data: seq<nat>, out: seq<nat>, k: nat, low: nat)
    requires Split(data, 5, out, 8, k, low) && k < 8
    ensures Unpack(data) == if k < 5 && low == 0 then Some(out) else None
  {
    SpanIs(|data|, 5);
    SpanIs(|out|, 8);
    WholeBytes(5 * |data|, |out|, k);
    SplitParts(Val(data, 5), out, k, low);
  }

  lemma SplitParts(v: nat, out: seq<nat>, k: nat, low: nat)
    requires Groups(out, 8) && Fits(low, k) && v == Shl(Val(out, 8), k) + low
    ensures Low(v, k) == low && Spell(Shr(v, k), |out|, 8) == out
  {
    TakeOff(Val(out, 8), low, k);
    SpellVal(out, 8);
  }

  lemma WholeBytes(n: nat, m: nat, k: nat)
    requires n == m * 8 + k && k < 8
    ensures n / 8 == m && n % 8 == k
  {
  }

  /** Writes out whole groups while there are enough pending bits. */
  method Flush(ghost read: seq<nat>, ghost f: nat, out0: seq<nat>, t: nat, acc: nat, bits0: nat)
    returns (out: seq<nat>, bits: nat)
    requires t >= 1 && Reading(read, f, out0, t, acc, bits0)
    ensures bits < t && Reading(read, f, out, t, acc, bits)
  {
    out, bits := out0, bits0;
    while bits >= t
      invariant Reading(read, f, out, t, acc, bits)
    {
      WriteGroup(read, f, out, t, acc, bits - t);
      bits := bits - t;
      out := out + [Low(Shr(acc, bits), t)];
    }
  }

  /** Reads all groups, keeping fewer than `t` bits pending. */
  method ReadAll(data: seq<nat>, f: nat, t: nat) returns (out: seq<nat>, acc: nat, bits: nat)
    requires 1 <= f <= 8 && 1 <= t <= 8 && Groups(data, f)
    ensures bits < t && Reading(data, f, out, t, acc, bits)
  {
    acc, bits, out := 0, 0, [];
    for i := 0 to |data|
      invariant bits < t && Reading(data[..i], f, out, t, acc, bits)
    {
      ReadGroup(data[..i], data[i], f, out, t, acc, bits);
      assert data[..i + 1] == data[..i] + [data[i]];
      acc := Low(Shl(acc, f) + data[i], 32);
      out, bits := Flush(data[..i + 1], f, out, t, acc, bits + f);
    }
    assert data[..|data|] == data;
  }

  /** The code's regrouping, for groups of up to eight bits. The new group is added rather than or-ed in, which is the
  same on the zero bits the shift leaves. */
  method ConvertBits(data: seq<nat>, f: nat, t: nat, pad: bool) returns (r: Option<seq<nat>>)
    requires 1 <= f <= 8 && 1 <= t <= 8 && Groups(data, f)
    ensures pad ==> r.Some? && exists k: nat :: k < t && Padded(data, f, r.value, t, k)
    ensures !pad ==> exists out, k: nat, low ::
              k < t && Split(data, f, out, t, k, low) && r == if k < f && low == 0 then Some(out) else None
  {
    var out, acc, bits := ReadAll(data, f, t);
    if pad {
      if bits > 0 {
        PaddedEnd(data, f, out, t, acc, bits);
        out := out + [Low(Low(Shl(acc, t - bits), 32), t)];
      } else {
        assert Padded(data, f, out, t, 0);
      }
    } else {
      SplitEnd(data, f, out, t, acc, bits);
      if bits >= f {
        return None;
      }
      if Low(Low(Shl(acc, t - bits), 32), t) != 0 {
        return None;
      }
    }
    return Some(out);
  }

  /** The regrouping of a key into symbols. */
  method ToSymbols(data: seq<nat>) returns (symbols: seq<nat>)
    requires Groups(data, 8)
    ensures symbols == Repack(data)
  {
    var r := ConvertBits(data, 8, 5, true);
    symbols := r.value;
    ghost var k: nat :| k < 5 && Padded(data, 8, symbols, 5, k);
    PaddedIsRepacked(data, symbols, k);
  }

  /** The regrouping of symbols into bytes. */
  method ToBytes(data: seq<nat>) returns (r: Option<seq<nat>>)
    requires Groups(data, 5)
    ensures r == Unpack(data)
  {
    r := ConvertBits(data, 5, 8, false);
    ghost var out, k: nat, low :|
      k < 8 && Split(data, 5, out, 8, k, low) && r == if k < 5 && low == 0 then Some(out) else None;
    SplitIsUnpacked(data, out, k, low);
  }
}
