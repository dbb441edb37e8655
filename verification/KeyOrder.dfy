/** Two orders on strings: by code point, and by UTF-16 code unit. They differ because a code point from U+10000 on is
written with units from 0xD800 on, below those of U+E000 to U+FFFF. */
module KeyOrders {
  import opened Sorting

  datatype KeyOrder = CodePoints | CodeUnits

  /** The UTF-16 form of a code point: itself, or a surrogate pair. */
  function Units(c: char): (u: seq<nat>)
    ensures |u| == 1 || |u| == 2
  {
    var n := c as int;
    if n < 0x10000 then [n] else [0xD800 + (n - 0x10000) / 0x400, 0xDC00 + (n - 0x10000) % 0x400]
  }

  function Utf16(s: string): seq<nat> {
    if s == [] then [] else Units(s[0]) + Utf16(s[1..])
  }

  predicate UnitLt(x: nat, y: nat) {
    x < y
  }

  predicate Utf16Le(a: string, b: string) {
    Lex(Utf16(a), Utf16(b), UnitLt)
  }

  function OrderOf(o: KeyOrder): (string, string) -> bool {
    match o
    case CodePoints => LexLe
    case CodeUnits => Utf16Le
  }

  // ---- characters

  /** Supplementary characters, written as a pair, and those of the basic plane above the surrogates. */
  predicate Supplementary(c: char) {
    c as int >= 0x10000
  }

  predicate AboveSurrogates(c: char) {
    0xE000 <= c as int < 0x10000
  }

  predicate Swapped(c: char, d: char) {
    (Supplementary(c) && AboveSurrogates(d)) || (AboveSurrogates(c) && Supplementary(d))
  }

  /** The order of UTF-16 on single characters. */
  predicate PairLt(c: char, d: char) {
    if Swapped(c, d) then d < c else c < d
  }

  lemma UnitRange(c: char)
    ensures var u := Units(c);
      if Supplementary(c) then |u| == 2 && 0xD800 <= u[0] < 0xDC00
      else |u| == 1 && u[0] == c as int && (u[0] < 0xD800 || u[0] >= 0xE000)
  {
    assert c as int < 0x110000;
  }

  /** Comparing forms that start with two characters compares the characters first. */
  lemma UnitsCompare(c: char, x: seq<nat>, d: char, y: seq<nat>)
    ensures Lex(Units(c) + x, Units(d) + y, UnitLt) <==> PairLt(c, d) || (c == d && Lex(x, y, UnitLt))
  {
    UnitRange(c);
    UnitRange(d);
    var a, b := Units(c) + x, Units(d) + y;
    assert a[0] == Units(c)[0] && b[0] == Units(d)[0];
    if Supplementary(c) && Supplementary(d) {
      assert a[1..] == [Units(c)[1]] + x && b[1..] == [Units(d)[1]] + y;
      assert a[1..][1..] == x && b[1..][1..] == y;
      PairOrder(c as int - 0x10000, d as int - 0x10000);
    } else {
      assert !Supplementary(c) ==> a[1..] == x;
      assert !Supplementary(d) ==> b[1..] == y;
    }
  }

  lemma PairOrder(m: nat, n: nat)
    ensures m < n <==> m / 0x400 < n / 0x400 || (m / 0x400 == n / 0x400 && m % 0x400 < n % 0x400)
    ensures m == n <==> m / 0x400 == n / 0x400 && m % 0x400 == n % 0x400
  {
  }

  /** The order of code units, character by character. */
  lemma {:induction false} Utf16Compare(a: string, b: string)
    ensures Utf16Le(a, b) <==> Lex(a, b, PairLt)
  {
    if a != [] && b != [] {
      UnitsCompare(a[0], Utf16(a[1..]), b[0], Utf16(b[1..]));
      Utf16Compare(a[1..], b[1..]);
    } else if a != [] {
      assert Utf16(a) != [] && Utf16(b) == [];
    }
  }

  lemma OrderIsTotal(o: KeyOrder)
    ensures IsTotalPreorder(OrderOf(o))
    ensures forall a, b :: OrderOf(o)(a, b) && OrderOf(o)(b, a) ==> a == b
  {
    match o
    case CodePoints => LexIsTotalOrder();
    case CodeUnits =>
      forall a, b ensures Utf16Le(a, b) <==> Lex(a, b, PairLt) { Utf16Compare(a, b); }
      forall a, b ensures Utf16Le(a, b) || Utf16Le(b, a) { LexTotal(a, b, PairLt); }
      forall a, b, c | Utf16Le(a, b) && Utf16Le(b, c) ensures Utf16Le(a, c) { LexTransitive(a, b, c, PairLt); }
      forall a, b | Utf16Le(a, b) && Utf16Le(b, a) ensures a == b { LexTotal(a, b, PairLt); }
  }

  // ---- where the orders part

  /** At the first difference one string has a supplementary character and the other one above the surrogates. */
  ghost predicate Clash(a: string, b: string) {
    exists i: nat :: ClashAt(a, b, i)
  }

  ghost predicate ClashAt(a: string, b: string, i: nat) {
    i < |a| && i < |b| && a[..i] == b[..i] && Swapped(a[i], b[i])
  }

  lemma ClashSplits(a: string, b: string)
    requires a != [] && b != []
    ensures Clash(a, b) <==> Swapped(a[0], b[0]) || (a[0] == b[0] && Clash(a[1..], b[1..]))
  {
    if i: nat :| ClashAt(a, b, i) {
      if i > 0 {
        assert a[0] == a[..i][0] == b[..i][0] == b[0];
        assert a[1..][..i - 1] == a[..i][1..] && b[1..][..i - 1] == b[..i][1..];
        assert ClashAt(a[1..], b[1..], i - 1);
      }
    }
    if Swapped(a[0], b[0]) {
      assert ClashAt(a, b, 0);
    }
    if a[0] == b[0] && Clash(a[1..], b[1..]) {
      var i: nat :| ClashAt(a[1..], b[1..], i);
      assert a[..i + 1] == [a[0]] + a[1..][..i] && b[..i + 1] == [b[0]] + b[1..][..i];
      assert ClashAt(a, b, i + 1);
    }
  }

  /** The two orders disagree on exactly these pairs. */
  lemma {:induction false} OrdersDisagree(a: string, b: string)
    ensures LexLe(a, b) != Utf16Le(a, b) <==> Clash(a, b)
  {
    Utf16Compare(a, b);
    if a != [] && b != [] {
      ClashSplits(a, b);
      if a[0] == b[0] {
        OrdersDisagree(a[1..], b[1..]);
        Utf16Compare(a[1..], b[1..]);
      }
    }
  }
}
