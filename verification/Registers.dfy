/** A register that reads symbols one at a time, known only by the laws of its step: what follows from them for every
checksum of that kind. */
module Registers {
  import opened BitGroups

  type Bits = seq<bool>

  /** The low `n` bits of `x`, most significant first. */
  function ToBits(x: nat, n: nat): (s: Bits)
    ensures |s| == n
    decreases n, x
  {
    if n == 0 then [] else ToBits(x / 2, n - 1) + [x % 2 == 1]
  }

  /** `step` reads a symbol; `put` mixes bits into the low end of the register. */
  datatype Code<!R> = Code(start: R, step: (R, nat) -> R, put: (R, Bits) -> R)

  /** Symbols read after a change to the low 25 bits push that change up and fill in below it. */
  ghost predicate Linear<R(!new)>(code: Code<R>) {
    && (forall a: R :: code.put(a, []) == a)
    && (forall a: R, u: Bits, v: nat :: |u| <= 25 && Fits(v, 5) ==>
          code.step(code.put(a, u), v) == code.put(code.step(a, 0), u + ToBits(v, 5)))
    && (forall a: R, u: Bits, u': Bits :: |u| == |u'| == 30 && code.put(a, u) == code.put(a, u') ==> u == u')
  }

  ghost predicate Lossless<R(!new)>(code: Code<R>) {
    forall a: R, b: R, v: nat :: code.step(a, v) == code.step(b, v) ==> a == b
  }

  function Read<R>(code: Code<R>, values: seq<nat>): R {
    if values == [] then code.start else code.step(Read(code, values[..|values| - 1]), values[|values| - 1])
  }

  lemma ReadAppend<R>(code: Code<R>, x: seq<nat>, v: nat)
    ensures Read(code, x + [v]) == code.step(Read(code, x), v)
  {
    assert (x + [v])[..|x + [v]| - 1] == x;
  }

  /** Registers that differ stay different under the same further symbols. */
  lemma {:induction false} DifferenceLasts<R(!new)>(code: Code<R>, x: seq<nat>, y: seq<nat>, z: seq<nat>)
    requires Lossless(code) && Read(code, x) != Read(code, y)
    ensures Read(code, x + z) != Read(code, y + z)
  {
    if z == [] {
      assert x + z == x && y + z == y;
    } else {
      var front, v := z[..|z| - 1], z[|z| - 1];
      DifferenceLasts(code, x, y, front);
      assert x + z == x + front + [v] && y + z == y + front + [v];
      ReadAppend(code, x + front, v);
      ReadAppend(code, y + front, v);
    }
  }

  function Zeros(n: nat): seq<nat> {
    seq(n, _ => 0)
  }

  /** The bits of the symbols, in order. */
  function Tail(c: seq<nat>): (s: Bits)
    ensures |s| == 5 * |c|
  {
    if c == [] then [] else Tail(c[..|c| - 1]) + ToBits(c[|c| - 1], 5)
  }

  ghost predicate Entered<R>(code: Code<R>, x: seq<nat>, c: seq<nat>) {
    Read(code, x + c) == code.put(Read(code, x + Zeros(|c|)), Tail(c))
  }

  lemma NothingEntered<R(!new)>(code: Code<R>, x: seq<nat>)
    requires Linear(code)
    ensures Entered(code, x, [])
  {
    assert Zeros(0) == [];
  }

  lemma SymbolEnters<R(!new)>(code: Code<R>, x: seq<nat>, front: seq<nat>, v: nat)
    requires Linear(code) && Fits(v, 5) && |front| <= 5 && Entered(code, x, front)
    ensures Entered(code, x, front + [v])
  {
    assert x + (front + [v]) == x + front + [v] && x + Zeros(|front| + 1) == x + Zeros(|front|) + [0];
    ReadAppend(code, x + front, v);
    ReadAppend(code, x + Zeros(|front|), 0);
    TailAppend(front, v);
  }

  /** What holds of no symbols and is passed on by one more symbol holds of any few symbols. */
  lemma {:induction false} SymbolBySymbol(p: seq<nat> -> bool, c: seq<nat>, n: nat)
    requires p([]) && forall front, v :: |front| < n && Fits(v, 5) && p(front) ==> p(front + [v])
    requires Groups(c, 5) && |c| <= n
    ensures p(c)
  {
    if c != [] {
      var front, v := c[..|c| - 1], c[|c| - 1];
      SymbolBySymbol(p, front, n);
      assert c == front + [v];
    }
  }

  /** Up to six symbols at the end enter the register untouched by any feedback. */
  lemma TailEnters<R(!new)>(code: Code<R>, x: seq<nat>, c: seq<nat>)
    requires Linear(code) && Groups(c, 5) && |c| <= 6
    ensures Entered(code, x, c)
  {
    NothingEntered(code, x);
    forall front, v | |front| < 6 && Fits(v, 5) && Entered(code, x, front)
      ensures Entered(code, x, front + [v])
    {
      SymbolEnters(code, x, front, v);
    }
    SymbolBySymbol(s => Entered(code, x, s), c, 6);
  }

  function FromBits(s: Bits): nat {
    if s == [] then 0 else 2 * FromBits(s[..|s| - 1]) + (if s[|s| - 1] then 1 else 0)
  }

  lemma {:induction false} BitsThere(x: nat, n: nat)
    requires Fits(x, n)
    ensures FromBits(ToBits(x, n)) == x
  {
    if n > 0 {
      FitsHalf(x, n);
      BitsThere(x / 2, n - 1);
      var s := ToBits(x, n);
      assert s[..|s| - 1] == ToBits(x / 2, n - 1);
    }
  }

  lemma {:induction false} BitsBack(s: Bits)
    ensures ToBits(FromBits(s), |s|) == s && Fits(FromBits(s), |s|)
  {
    if s != [] {
      var front, x := s[..|s| - 1], FromBits(s);
      BitsBack(front);
      assert x / 2 == FromBits(front) && (x % 2 == 1) == s[|s| - 1];
      FitsHalf(x, |s|);
    }
  }

  /** Bits read off as five-bit symbols. */
  function Symbols(s: Bits, n: nat): (c: seq<nat>)
    requires |s| == 5 * n
    ensures |c| == n
    decreases n, s
  {
    if n == 0 then [] else Symbols(s[..5 * n - 5], n - 1) + [FromBits(s[5 * n - 5..])]
  }

  lemma SymbolsAppend(s: Bits, n: nat, last: Bits)
    requires |s| == 5 * n && |last| == 5
    ensures Symbols(s + last, n + 1) == Symbols(s, n) + [FromBits(last)]
  {
    assert (s + last)[..5 * n] == s && (s + last)[5 * n..] == last;
  }

  lemma {:induction false} SymbolsThere(c: seq<nat>)
    requires Groups(c, 5)
    ensures Symbols(Tail(c), |c|) == c
  {
    if c != [] {
      var front, v := c[..|c| - 1], c[|c| - 1];
      SymbolsThere(front);
      BitsThere(v, 5);
      SymbolsAppend(Tail(front), |front|, ToBits(v, 5));
      assert c == front + [v];
    }
  }

  lemma TailAppend(c: seq<nat>, v: nat)
    ensures Tail(c + [v]) == Tail(c) + ToBits(v, 5)
  {
    assert (c + [v])[..|c + [v]| - 1] == c;
  }

  lemma GroupsAppend(c: seq<nat>, v: nat)
    requires Groups(c, 5) && Fits(v, 5)
    ensures Groups(c + [v], 5)
  {
  }

  lemma TailBack(c: seq<nat>, last: Bits)
    requires |last| == 5
    ensures Tail(c + [FromBits(last)]) == Tail(c) + last
  {
    BitsBack(last);
    TailAppend(c, FromBits(last));
  }

  lemma {:induction false} SymbolsBack(s: Bits, n: nat)
    requires |s| == 5 * n
    ensures Tail(Symbols(s, n)) == s
    decreases n
  {
    if n > 0 {
      var front, last := s[..5 * n - 5], s[5 * n - 5..];
      SymbolsBack(front, n - 1);
      assert s == front + last;
      SymbolsAppend(front, n - 1, last);
      TailBack(Symbols(front, n - 1), last);
    }
  }

  lemma {:induction false} SymbolsFit(s: Bits, n: nat)
    requires |s| == 5 * n
    ensures Groups(Symbols(s, n), 5)
    decreases n
  {
    if n > 0 {
      var front, last := s[..5 * n - 5], s[5 * n - 5..];
      SymbolsFit(front, n - 1);
      BitsBack(last);
      GroupsAppend(Symbols(front, n - 1), FromBits(last));
    }
  }

  lemma {:induction false} SymbolAt(s: Bits, n: nat, i: nat)
    requires |s| == 5 * n && i < n
    ensures Symbols(s, n)[i] == FromBits(s[5 * i..5 * i + 5])
    decreases n
  {
    if i < n - 1 {
      SymbolAt(s[..5 * n - 5], n - 1, i);
      assert s[..5 * n - 5][5 * i..5 * i + 5] == s[5 * i..5 * i + 5];
    } else {
      assert s[5 * n - 5..] == s[5 * i..5 * i + 5];
    }
  }

  /** Same six places, different symbols there, same before: the registers differ. */
  lemma TailsDiffer<R(!new)>(code: Code<R>, x: seq<nat>, c: seq<nat>, c': seq<nat>)
    requires Linear(code) && Groups(c, 5) && Groups(c', 5) && |c| == |c'| == 6 && c != c'
    ensures Read(code, x + c) != Read(code, x + c')
  {
    TailEnters(code, x, c);
    TailEnters(code, x, c');
    SymbolsThere(c);
    SymbolsThere(c');
  }

  /** The two texts agree outside the six places from `i` on. */
  ghost predicate BurstAt(data: seq<nat>, data': seq<nat>, i: nat) {
    |data| == |data'| && forall j :: 0 <= j < |data| && !(i <= j < i + 6) ==> data[j] == data'[j]
  }

  lemma BurstSplits(data: seq<nat>, data': seq<nat>, i: nat)
    requires BurstAt(data, data', i) && i + 6 <= |data| && data != data'
    ensures data == data[..i] + data[i..i + 6] + data[i + 6..]
    ensures data' == data[..i] + data'[i..i + 6] + data[i + 6..]
    ensures data[i..i + 6] != data'[i..i + 6]
  {
    assert data' == data'[..i] + data'[i..i + 6] + data'[i + 6..];
    assert data'[..i] == data[..i] && data'[i + 6..] == data[i + 6..];
  }

  lemma WindowChanges<R(!new)>(code: Code<R>, x: seq<nat>, data: seq<nat>, data': seq<nat>, i: nat)
    requires Linear(code) && Lossless(code) && i + 6 <= |data|
    requires Groups(data, 5) && Groups(data', 5) && BurstAt(data, data', i) && data != data'
    ensures Read(code, x + data) != Read(code, x + data')
  {
    var head, c, c', z := data[..i], data[i..i + 6], data'[i..i + 6], data[i + 6..];
    BurstSplits(data, data', i);
    BurstRegisters(code, x + head, c, c', z);
    Regroup(x, head, c, z);
    Regroup(x, head, c', z);
  }

  lemma {:induction false} AgreementLasts<R>(code: Code<R>, x: seq<nat>, y: seq<nat>, z: seq<nat>)
    ensures Read(code, x) == Read(code, y) ==> Read(code, x + z) == Read(code, y + z)
  {
    if z == [] {
      assert x + z == x && y + z == y;
    } else {
      var z', v := z[..|z| - 1], z[|z| - 1];
      AgreementLasts(code, x, y, z');
      assert x + z == x + z' + [v] && y + z == y + z' + [v];
      ReadAppend(code, x + z', v);
      ReadAppend(code, y + z', v);
    }
  }

  lemma Padded(data: seq<nat>, data': seq<nat>, i: nat)
    requires Groups(data, 5) && Groups(data', 5) && BurstAt(data, data', i) && data != data'
    ensures i < |data| && data + Zeros(6) != data' + Zeros(6)
    ensures BurstAt(data + Zeros(6), data' + Zeros(6), i)
    ensures Groups(data + Zeros(6), 5) && Groups(data' + Zeros(6), 5)
  {
    assert (data + Zeros(6))[..|data|] == data && (data' + Zeros(6))[..|data|] == data';
    assert i >= |data| ==> data == data';
  }

  /** Damage confined to six neighbouring symbols always shows in the register. */
  lemma BurstChanges<R(!new)>(code: Code<R>, x: seq<nat>, data: seq<nat>, data': seq<nat>, i: nat)
    requires Linear(code) && Lossless(code)
    requires Groups(data, 5) && Groups(data', 5) && BurstAt(data, data', i) && data != data'
    ensures Read(code, x + data) != Read(code, x + data')
  {
    Padded(data, data', i);
    WindowChanges(code, x, data + Zeros(6), data' + Zeros(6), i);
    AgreementLasts(code, x + data, x + data', Zeros(6));
    assert x + (data + Zeros(6)) == x + data + Zeros(6) && x + (data' + Zeros(6)) == x + data' + Zeros(6);
  }

  lemma Regroup(x: seq<nat>, head: seq<nat>, c: seq<nat>, z: seq<nat>)
    ensures x + (head + c + z) == x + head + c + z
  {
  }

  lemma BurstRegisters<R(!new)>(code: Code<R>, x: seq<nat>, c: seq<nat>, c': seq<nat>, z: seq<nat>)
    requires Linear(code) && Lossless(code)
    requires Groups(c, 5) && Groups(c', 5) && |c| == |c'| == 6 && c != c'
    ensures Read(code, x + c + z) != Read(code, x + c' + z)
  {
    TailsDiffer(code, x, c, c');
    DifferenceLasts(code, x + c, x + c', z);
  }
}
