/** Canonical JSON text: the printer of the transaction signer, and why every reader gets the value back from it.

Values are what the JSON decoder of the code yields, with numbers restricted to integers; strings are sequences of
code points. The text of a value is defined together with what follows it, as the printer appends it. */
module CanonicalJson {
  import opened Collections
  import opened Sorting
  import opened JsonText
  import opened KeyOrders

  // ---- scalars

  function Digit(d: nat): char
    requires d < 16
  {
    if d < 10 then '0' + d as char else 'a' + (d - 10) as char
  }

  function Digits(n: nat): (s: string)
    ensures s != []
  {
    (if n < 10 then [] else Digits(n / 10)) + [Digit(n % 10)]
  }

  function Number(n: int): string {
    if n < 0 then "-" + Digits(-n) else Digits(n)
  }

  /** Short escapes where there is one, `\u00xx` for the other control characters, everything else as it is. */
  function Escape(c: char): (e: string)
    ensures e != []
  {
    if c == '\"' then ['\\', '\"']
    else if c == '\\' then ['\\', '\\']
    else if c == 8 as char then ['\\', 'b']
    else if c == 12 as char then ['\\', 'f']
    else if c == '\n' then ['\\', 'n']
    else if c == '\r' then ['\\', 'r']
    else if c == '\t' then ['\\', 't']
    else if c < 32 as char then ['\\', 'u', '0', '0', Digit(c as int / 16), Digit(c as int % 16)]
    else [c]
  }

  const QUOTE: string := ['\"']

  /** An escaped string, its closing quote, and what follows. */
  function Escaped(s: string, rest: string): string {
    if s == [] then QUOTE + rest else Escape(s[0]) + Escaped(s[1..], rest)
  }

  function Quote(s: string, rest: string): string {
    QUOTE + Escaped(s, rest)
  }

  // ---- the printer

  /** The keys in the given order. */
  ghost predicate SortedListing(o: KeyOrder, ks: seq<string>, keys: set<string>) {
    && Sorted(ks, OrderOf(o))
    && (forall i, j :: 0 <= i < j < |ks| ==> ks[i] != ks[j])
    && (forall k :: k in keys <==> k in ks)
  }

  /** The text of a value with its keys in the given order, followed by `rest`. */
  ghost function Print(o: KeyOrder, v: Json, rest: string): string
    decreases v, 1, 0
  {
    match v
    case Null => "null" + rest
    case Bool(b) => (if b then "true" else "false") + rest
    case Num(n) => Number(n) + rest
    case Str(s) => Quote(s, rest)
    case Arr(items) => "[" + PrintItems(o, v, 0, rest)
    case Obj(fields) => "{" + PrintFields(o, v, SortedKeys(o, fields.Keys), 0, rest)
  }

  /** The elements from the `i`-th on, each after the first behind a comma, and the closing bracket. */
  ghost function PrintItems(o: KeyOrder, v: Json, i: nat, rest: string): string
    requires v.Arr? && i <= |v.items|
    decreases v, 0, |v.items| - i
  {
    if i == |v.items| then "]" + rest else Comma(i) + Print(o, v.items[i], PrintItems(o, v, i + 1, rest))
  }

  ghost function PrintFields(o: KeyOrder, v: Json, ks: seq<string>, i: nat, rest: string): string
    requires HasKeys(v, ks) && i <= |ks|
    decreases v, 0, |ks| - i
  {
    if i == |ks| then "}" + rest
    else Comma(i) + Quote(ks[i], ":" + Print(o, v.fields[ks[i]], PrintFields(o, v, ks, i + 1, rest)))
  }

  ghost predicate HasKeys(v: Json, ks: seq<string>) {
    v.Obj? && forall k :: k in ks ==> k in v.fields
  }

  function Comma(i: nat): string {
    if i == 0 then [] else ","
  }

  /** The text of a value. The code prints keys by code point. */
  ghost function Text(o: KeyOrder, v: Json): string {
    Print(o, v, [])
  }

  ghost function SortedKeys(o: KeyOrder, keys: set<string>): (ks: seq<string>)
    ensures SortedListing(o, ks, keys)
  {
    SortedKeysExist(o, keys);
    var ks :| SortedListing(o, ks, keys);
    ks
  }

  lemma {:induction false} SortedKeysExist(o: KeyOrder, keys: set<string>)
    ensures exists ks :: SortedListing(o, ks, keys)
    decreases |keys|
  {
    if keys == {} {
      assert SortedListing(o, [], keys);
    } else {
      var k :| k in keys;
      SortedKeysExist(o, keys - {k});
      var ks :| SortedListing(o, ks, keys - {k});
      KeyInserted(o, ks, keys - {k}, k);
      assert keys - {k} + {k} == keys;
    }
  }

  lemma KeyInserted(o: KeyOrder, ks: seq<string>, keys: set<string>, k: string)
    requires SortedListing(o, ks, keys) && k !in keys
    ensures SortedListing(o, Insert(ks, k, OrderOf(o)), keys + {k})
  {
    var s := Insert(ks, k, OrderOf(o));
    OrderIsTotal(o);
    InsertSorted(ks, k, OrderOf(o));
    InsertMultiset(ks, k, OrderOf(o));
    ListingFromMultiset(o, s, ks, keys, k);
  }

  lemma ListingFromMultiset(o: KeyOrder, s: seq<string>, ks: seq<string>, keys: set<string>, k: string)
    requires SortedListing(o, ks, keys) && k !in keys && multiset(s) == multiset(ks) + multiset{k}
    ensures forall i, j :: 0 <= i < j < |s| ==> s[i] != s[j]
    ensures forall x :: x in keys + {k} <==> x in s
  {
    forall x
      ensures x in s <==> x in ks || x == k
    {
      assert x in s <==> x in multiset(s);
      assert x in ks <==> x in multiset(ks);
    }
    forall i, j | 0 <= i < j < |s|
      ensures s[i] != s[j]
    {
      if s[i] == s[j] {
        Repeats(s, i, j);
        CountInDistinct(ks, s[i]);
      }
    }
  }

  // ---- reading back: scalars

  /** What may follow a value: the end of the text, or anything but a digit. */
  ghost predicate Delimited(r: string) {
    r == [] || !IsDigit(r[0])
  }

  lemma {:induction false} DigitsReadOn(n: nat, x: string)
    ensures ReadDigits(Digits(n) + x, 0) == ReadDigits(x, n)
  {
    var last := [Digit(n % 10)];
    assert ReadDigits(last + x, n / 10) == ReadDigits(x, n) by {
      assert (last + x)[1..] == x;
    }
    if n < 10 {
      assert Digits(n) == last;
    } else {
      assert Digits(n) + x == Digits(n / 10) + (last + x);
      DigitsReadOn(n / 10, last + x);
    }
  }

  lemma {:induction false} DigitsHead(n: nat)
    ensures IsDigit(Digits(n)[0]) && (Digits(n)[0] == '0' <==> n == 0)
  {
    if n >= 10 {
      DigitsHead(n / 10);
    }
  }

  lemma NatReadBack(n: nat, x: string)
    requires Delimited(x)
    ensures ReadNat(Digits(n) + x) == Some((n, x))
  {
    var s := Digits(n) + x;
    DigitsHead(n);
    DigitsReadOn(n, x);
    assert s[0] == Digits(n)[0];
    if n == 0 {
      assert Digits(0) == ['0'];
      assert s[1..] == x;
    }
  }

  lemma NumberHead(n: int, x: string)
    ensures var c := (Number(n) + x)[0]; if n < 0 then c == '-' else IsDigit(c)
  {
    if n >= 0 {
      DigitsHead(n);
      assert (Number(n) + x)[0] == Digits(n)[0];
    }
  }

  lemma AfterMinus(d: string, x: string)
    ensures ("-" + d + x)[1..] == d + x
  {
  }

  lemma NumberReadBack(n: int, x: string)
    requires Delimited(x)
    ensures ReadInt(Number(n) + x) == Some((n, x))
  {
    NumberHead(n, x);
    if n < 0 {
      AfterMinus(Digits(-n), x);
      NatReadBack(-n, x);
    } else {
      NatReadBack(n, x);
    }
  }

  lemma HexDigit(d: nat)
    requires d < 16
    ensures HexValue(Digit(d)) == Some(d)
  {
  }

  lemma ControlReadBack(c: char, x: string)
    requires c < 32 as char
    ensures ReadUnicode(['0', '0', Digit(c as int / 16), Digit(c as int % 16)] + x) == Some((c, x))
  {
    var s := ['0', '0', Digit(c as int / 16), Digit(c as int % 16)] + x;
    HexDigit(0);
    HexDigit(c as int / 16);
    HexDigit(c as int % 16);
    assert s[4..] == x;
    assert ReadHex(s) == Some((c as int, x));
  }

  lemma EscapeReadBack(c: char, x: string)
    ensures (Escape(c) + x)[0] != '\"' && ReadChar(Escape(c) + x) == Some((c, x))
  {
    var e := Escape(c);
    var s := e + x;
    assert s[0] == e[0];
    if |e| == 1 {
      assert s[1..] == x;
    } else {
      assert s[1] == e[1];
      if |e| == 2 {
        assert s[2..] == x;
      } else {
        assert s[2..] == ['0', '0', Digit(c as int / 16), Digit(c as int % 16)] + x;
        ControlReadBack(c, x);
      }
    }
  }

  /** No text that reads as the character is shorter, and code numbers are in small letters. */
  lemma EscapeShortest(c: char, e: string)
    requires ReadChar(e) == Some((c, []))
    ensures |Escape(c)| <= |e|
    ensures |Escape(c)| > 1 ==> forall i :: 0 <= i < |Escape(c)| ==> !('A' <= Escape(c)[i] <= 'Z')
  {
    if |e| >= 2 && e[0] == '\\' && e[1] == 'u' {
      assert |e[2..]| >= 4;
    }
  }

  lemma {:induction false} EscapedReadBack(s: string, x: string)
    ensures ReadChars(Escaped(s, x)) == Some((s, x))
  {
    if s == [] {
      assert (QUOTE + x)[1..] == x;
    } else {
      EscapeReadBack(s[0], Escaped(s[1..], x));
      EscapedReadBack(s[1..], x);
      assert [s[0]] + s[1..] == s;
    }
  }

  lemma QuoteReadBack(s: string, x: string)
    ensures ReadString(Quote(s, x)) == Some((s, x))
  {
    assert Quote(s, x)[1..] == Escaped(s, x);
    EscapedReadBack(s, x);
  }

  // ---- reading back: values

  /** The first character of a value's text tells its kind. */
  ghost predicate HeadOf(c: char, v: Json) {
    match v
    case Null => c == 'n'
    case Bool(b) => c == (if b then 't' else 'f')
    case Num(_) => c == '-' || IsDigit(c)
    case Str(_) => c == '\"'
    case Arr(_) => c == '['
    case Obj(_) => c == '{'
  }

  lemma PrintHead(o: KeyOrder, v: Json, x: string)
    ensures var s := Print(o, v, x); s != [] && HeadOf(s[0], v) && SkipSpace(s) == s && s[0] != ']' && s[0] != '}'
  {
    if v.Num? {
      NumberHead(v.n, x);
    }
  }

  /** The rest of a list: a closing bracket at its end, else an element or a comma. */
  lemma ItemsHead(o: KeyOrder, v: Json, i: nat, x: string)
    requires v.Arr? && i <= |v.items|
    ensures var s := PrintItems(o, v, i, x);
      && s != [] && (i == |v.items| <==> s[0] == ']') && SkipSpace(s) == s
      && (i > 0 ==> Delimited(s) && (i < |v.items| <==> s[0] == ','))
  {
    if i < |v.items| {
      PrintHead(o, v.items[i], PrintItems(o, v, i + 1, x));
    }
  }

  lemma FieldsHead(o: KeyOrder, v: Json, ks: seq<string>, i: nat, x: string)
    requires HasKeys(v, ks) && i <= |ks|
    ensures var s := PrintFields(o, v, ks, i, x);
      && s != [] && (i == |ks| <==> s[0] == '}') && SkipSpace(s) == s
      && (i > 0 ==> Delimited(s) && (i < |ks| <==> s[0] == ','))
  {
  }

  /** The printer and the reader are inverse: whatever follows a value, reading its text gives the value and leaves what
  follows. */
  lemma {:induction false} ReadBack(o: KeyOrder, v: Json, x: string)
    requires Delimited(x)
    ensures ReadValue(Print(o, v, x)) == Some((v, x))
    decreases v, 2, 0
  {
    PrintHead(o, v, x);
    match v
    case Null => WordReadBack("null", v, x);
    case Bool(b) => WordReadBack(if b then "true" else "false", v, x);
    case Num(n) => NumberReadBack(n, x);
    case Str(s) => QuoteReadBack(s, x);
    case Arr(_) =>
      AfterHead("[", PrintItems(o, v, 0, x));
      ArrReadBack(o, v, x);
    case Obj(fields) =>
      AfterHead("{", PrintFields(o, v, SortedKeys(o, fields.Keys), 0, x));
      ObjReadBack(o, v, x);
  }

  lemma AfterHead(a: string, s: string)
    requires |a| == 1
    ensures (a + s)[1..] == s
  {
  }

  lemma WordReadBack(word: string, v: Json, x: string)
    requires word != []
    ensures ReadWord(word, v, word + x) == Some((v, x))
  {
    assert (word + x)[|word|..] == x;
  }

  lemma FirstItem(o: KeyOrder, v: Json, x: string)
    requires v.Arr? && v.items != []
    ensures PrintItems(o, v, 0, x) == Print(o, v.items[0], PrintItems(o, v, 1, x)) && v.items[..0] == []
  {
  }

  lemma {:induction false} ArrReadBack(o: KeyOrder, v: Json, x: string)
    requires v.Arr?
    ensures ReadArray(PrintItems(o, v, 0, x)) == Some((v, x))
    decreases v, 1, 0
  {
    ItemsHead(o, v, 0, x);
    if v.items == [] {
      assert ("]" + x)[1..] == x;
    } else {
      ItemsReadBack(o, v, 0, x);
      FirstItem(o, v, x);
    }
  }

  lemma {:induction false} ItemsReadBack(o: KeyOrder, v: Json, i: nat, x: string)
    requires v.Arr? && i < |v.items|
    ensures ReadItems(Print(o, v.items[i], PrintItems(o, v, i + 1, x)), v.items[..i]) == Some((v, x))
    decreases v, 0, |v.items| - i
  {
    var rest := PrintItems(o, v, i + 1, x);
    ItemsHead(o, v, i + 1, x);
    ReadBack(o, v.items[i], rest);
    assert v.items[..i] + [v.items[i]] == v.items[..i + 1];
    if i + 1 == |v.items| {
      assert ("]" + x)[1..] == x;
      assert v.items[..i + 1] == v.items;
    } else {
      ItemsReadBack(o, v, i + 1, x);
      assert rest[1..] == Print(o, v.items[i + 1], PrintItems(o, v, i + 2, x));
    }
  }

  /** The fields under the first `i` keys. */
  ghost function FieldsUpTo(v: Json, ks: seq<string>, i: nat): map<string, Json>
    requires HasKeys(v, ks) && i <= |ks|
  {
    map k | k in ks[..i] :: v.fields[k]
  }

  lemma FieldsGrow(v: Json, ks: seq<string>, i: nat)
    requires HasKeys(v, ks) && i < |ks|
    ensures FieldsUpTo(v, ks, i)[ks[i] := v.fields[ks[i]]] == FieldsUpTo(v, ks, i + 1)
  {
    assert ks[..i + 1] == ks[..i] + [ks[i]];
  }

  /** A field without the comma before it. */
  ghost function PrintField(o: KeyOrder, v: Json, ks: seq<string>, i: nat, x: string): string
    requires HasKeys(v, ks) && i < |ks|
  {
    Quote(ks[i], ":" + Print(o, v.fields[ks[i]], PrintFields(o, v, ks, i + 1, x)))
  }

  lemma {:induction false} FieldReadBack(o: KeyOrder, v: Json, ks: seq<string>, i: nat, x: string)
    requires HasKeys(v, ks) && i < |ks|
    ensures ReadField(PrintField(o, v, ks, i, x)) ==
            Some(((ks[i], v.fields[ks[i]]), PrintFields(o, v, ks, i + 1, x)))
    decreases v, 0, 0
  {
    var rest := PrintFields(o, v, ks, i + 1, x);
    var value := Print(o, v.fields[ks[i]], rest);
    QuoteReadBack(ks[i], ":" + value);
    assert (":" + value)[1..] == value;
    FieldsHead(o, v, ks, i + 1, x);
    ReadBack(o, v.fields[ks[i]], rest);
  }

  lemma {:induction false} FieldsReadBack(o: KeyOrder, v: Json, ks: seq<string>, i: nat, x: string)
    requires HasKeys(v, ks) && i < |ks|
    ensures ReadFields(PrintField(o, v, ks, i, x), FieldsUpTo(v, ks, i)) == Some((Obj(FieldsUpTo(v, ks, |ks|)), x))
    decreases v, 0, 1 + |ks| - i
  {
    var rest := PrintFields(o, v, ks, i + 1, x);
    FieldReadBack(o, v, ks, i, x);
    FieldsHead(o, v, ks, i + 1, x);
    FieldsGrow(v, ks, i);
    if i + 1 == |ks| {
      assert ("}" + x)[1..] == x;
    } else {
      FieldsReadBack(o, v, ks, i + 1, x);
      assert rest[1..] == PrintField(o, v, ks, i + 1, x);
    }
  }

  lemma FirstField(o: KeyOrder, v: Json, ks: seq<string>, x: string)
    requires HasKeys(v, ks) && ks != []
    ensures PrintFields(o, v, ks, 0, x) == PrintField(o, v, ks, 0, x)
  {
  }

  lemma {:induction false} ObjReadBack(o: KeyOrder, v: Json, x: string)
    requires v.Obj?
    ensures ReadObject(PrintFields(o, v, SortedKeys(o, v.fields.Keys), 0, x)) == Some((v, x))
    decreases v, 1, 0
  {
    var ks := SortedKeys(o, v.fields.Keys);
    AllFields(v, ks);
    FieldsHead(o, v, ks, 0, x);
    if ks == [] {
      assert ("}" + x)[1..] == x;
    } else {
      FieldsReadBack(o, v, ks, 0, x);
      FirstField(o, v, ks, x);
    }
  }

  lemma AllFields(v: Json, ks: seq<string>)
    requires v.Obj? && forall k :: k in v.fields.Keys <==> k in ks
    ensures HasKeys(v, ks) && FieldsUpTo(v, ks, |ks|) == v.fields && FieldsUpTo(v, ks, 0) == map[]
    ensures ks == [] ==> v.fields == map[]
  {
    assert ks[..|ks|] == ks && ks[..0] == [];
  }

  // ---- one text, one value, one order

  /** The two orders list the keys of every object in `v` alike. */
  ghost predicate SameOrder(o: KeyOrder, o': KeyOrder, v: Json) {
    match v
    case Arr(items) => forall i :: 0 <= i < |items| ==> SameOrder(o, o', items[i])
    case Obj(fields) =>
      && SortedKeys(o, fields.Keys) == SortedKeys(o', fields.Keys)
      && forall k :: k in fields ==> SameOrder(o, o', fields[k])
    case _ => true
  }

  lemma DropHead(a: string, x: string, y: string)
    requires a + x == a + y
    ensures x == y
  {
    assert x == (a + x)[|a|..] && y == (a + y)[|a|..];
  }

  lemma SameRest(o: KeyOrder, v: Json, x: string, o': KeyOrder, w: Json, y: string)
    requires Print(o, v, x) == Print(o', w, y) && Delimited(x) && Delimited(y)
    ensures v == w && x == y
  {
    ReadBack(o, v, x);
    ReadBack(o', w, y);
  }

  /** Unique decodability: a text, up to any delimiter, belongs to one value and one way of ordering its keys. */
  lemma {:induction false} PrintRead(o: KeyOrder, v: Json, x: string, o': KeyOrder, w: Json, y: string)
    requires Print(o, v, x) == Print(o', w, y) && Delimited(x) && Delimited(y)
    ensures v == w && x == y && SameOrder(o, o', v)
    decreases v, 2, 0
  {
    SameRest(o, v, x, o', w, y);
    match v
    case Arr(_) =>
      DropHead("[", PrintItems(o, v, 0, x), PrintItems(o', v, 0, x));
      ItemsOrder(o, o', v, 0, x, x);
    case Obj(_) => ObjOrder(o, o', v, x);
    case _ =>
  }

  lemma {:induction false} ObjOrder(o: KeyOrder, o': KeyOrder, v: Json, x: string)
    requires v.Obj? && Print(o, v, x) == Print(o', v, x)
    ensures SameOrder(o, o', v)
    decreases v, 1, 0
  {
    var ks, ls := SortedKeys(o, v.fields.Keys), SortedKeys(o', v.fields.Keys);
    DropHead("{", PrintFields(o, v, ks, 0, x), PrintFields(o', v, ls, 0, x));
    FieldsOrder(o, o', v, ks, ls, 0, x, x);
    SameFields(o, o', v, ks, ls);
  }

  lemma SameFields(o: KeyOrder, o': KeyOrder, v: Json, ks: seq<string>, ls: seq<string>)
    requires HasKeys(v, ks) && (forall k :: k in v.fields.Keys <==> k in ks)
    requires |ks| == |ls| && forall j :: 0 <= j < |ks| ==> SameField(o, o', v, ks, ls, j)
    ensures ks == ls && forall k :: k in v.fields ==> SameOrder(o, o', v.fields[k])
  {
    forall j | 0 <= j < |ks|
      ensures ks[j] == ls[j] && SameOrder(o, o', v.fields[ks[j]])
    {
      assert SameField(o, o', v, ks, ls, j);
    }
    forall k | k in v.fields
      ensures SameOrder(o, o', v.fields[k])
    {
      var j :| 0 <= j < |ks| && ks[j] == k;
    }
  }

  lemma {:induction false} ItemOrder(o: KeyOrder, o': KeyOrder, v: Json, i: nat, x: string, y: string)
    requires v.Arr? && i < |v.items| && PrintItems(o, v, i, x) == PrintItems(o', v, i, y)
    ensures SameOrder(o, o', v.items[i]) && PrintItems(o, v, i + 1, x) == PrintItems(o', v, i + 1, y)
    decreases v, 0, 0
  {
    var s, t := PrintItems(o, v, i + 1, x), PrintItems(o', v, i + 1, y);
    DropHead(Comma(i), Print(o, v.items[i], s), Print(o', v.items[i], t));
    ItemsHead(o, v, i + 1, x);
    ItemsHead(o', v, i + 1, y);
    PrintRead(o, v.items[i], s, o', v.items[i], t);
  }

  lemma {:induction false} ItemsOrder(o: KeyOrder, o': KeyOrder, v: Json, i: nat, x: string, y: string)
    requires v.Arr? && i <= |v.items| && PrintItems(o, v, i, x) == PrintItems(o', v, i, y)
    ensures forall j :: i <= j < |v.items| ==> SameOrder(o, o', v.items[j])
    decreases v, 0, 1 + |v.items| - i
  {
    if i < |v.items| {
      ItemOrder(o, o', v, i, x, y);
      ItemsOrder(o, o', v, i + 1, x, y);
    }
  }

  /** The two listings have the same key at place `j`, and its value is printed alike. */
  ghost predicate SameField(o: KeyOrder, o': KeyOrder, v: Json, ks: seq<string>, ls: seq<string>, j: nat)
    requires HasKeys(v, ks) && j < |ks| && j < |ls|
  {
    ks[j] == ls[j] && SameOrder(o, o', v.fields[ks[j]])
  }

  lemma {:induction false} FieldOrder(o: KeyOrder, o': KeyOrder, v: Json, ks: seq<string>, ls: seq<string>, i: nat,
                                      x: string, y: string)
    requires HasKeys(v, ks) && HasKeys(v, ls) && i < |ks| && i < |ls|
    requires PrintFields(o, v, ks, i, x) == PrintFields(o', v, ls, i, y)
    ensures SameField(o, o', v, ks, ls, i) && PrintFields(o, v, ks, i + 1, x) == PrintFields(o', v, ls, i + 1, y)
    decreases v, 0, 0
  {
    var s, t := PrintFields(o, v, ks, i + 1, x), PrintFields(o', v, ls, i + 1, y);
    DropHead(Comma(i), PrintField(o, v, ks, i, x), PrintField(o', v, ls, i, y));
    FieldReadBack(o, v, ks, i, x);
    FieldReadBack(o', v, ls, i, y);
    QuoteReadBack(ks[i], ":" + Print(o, v.fields[ks[i]], s));
    QuoteReadBack(ls[i], ":" + Print(o', v.fields[ls[i]], t));
    DropHead(":", Print(o, v.fields[ks[i]], s), Print(o', v.fields[ls[i]], t));
    FieldsHead(o, v, ks, i + 1, x);
    FieldsHead(o', v, ls, i + 1, y);
    PrintRead(o, v.fields[ks[i]], s, o', v.fields[ls[i]], t);
  }

  ghost predicate SameFrom(o: KeyOrder, o': KeyOrder, v: Json, ks: seq<string>, ls: seq<string>, i: nat)
    requires HasKeys(v, ks)
  {
    |ks| == |ls| && forall j :: i <= j < |ks| ==> SameField(o, o', v, ks, ls, j)
  }

  lemma SameFromHere(o: KeyOrder, o': KeyOrder, v: Json, ks: seq<string>, ls: seq<string>, i: nat)
    requires HasKeys(v, ks) && i < |ks| && SameFrom(o, o', v, ks, ls, i + 1) && SameField(o, o', v, ks, ls, i)
    ensures SameFrom(o, o', v, ks, ls, i)
  {
  }

  lemma SameEnd(o: KeyOrder, o': KeyOrder, v: Json, ks: seq<string>, ls: seq<string>, i: nat, x: string, y: string)
    requires HasKeys(v, ks) && HasKeys(v, ls) && i <= |ks| && i <= |ls|
    requires PrintFields(o, v, ks, i, x) == PrintFields(o', v, ls, i, y)
    ensures i == |ks| <==> i == |ls|
  {
    FieldsHead(o, v, ks, i, x);
    FieldsHead(o', v, ls, i, y);
  }

  lemma {:induction false} FieldsOrder(o: KeyOrder, o': KeyOrder, v: Json, ks: seq<string>, ls: seq<string>, i: nat,
                                       x: string, y: string)
    requires HasKeys(v, ks) && HasKeys(v, ls) && i <= |ks| && i <= |ls|
    requires PrintFields(o, v, ks, i, x) == PrintFields(o', v, ls, i, y)
    ensures SameFrom(o, o', v, ks, ls, i)
    decreases v, 0, 1 + |ks| - i
  {
    SameEnd(o, o', v, ks, ls, i, x, y);
    if i < |ks| {
      FieldOrder(o, o', v, ks, ls, i, x, y);
      FieldsOrder(o, o', v, ks, ls, i + 1, x, y);
      SameFromHere(o, o', v, ks, ls, i);
    }
  }

  /** Two values with the same canonical text are the same value. */
  lemma CanonicalTextIsUnique(o: KeyOrder, v: Json, w: Json)
    requires Text(o, v) == Text(o, w)
    ensures v == w
  {
    ReadBack(o, v, []);
    ReadBack(o, w, []);
  }

  // ---- the code

  /** Key order is settled by the keys alone. */
  lemma SortedKeysUnique(o: KeyOrder, ks: seq<string>, ls: seq<string>, keys: set<string>)
    requires SortedListing(o, ks, keys) && SortedListing(o, ls, keys)
    ensures ks == ls
  {
    forall x: string
      ensures multiset(ks)[x] == multiset(ls)[x]
    {
      CountInDistinct(ks, x);
      CountInDistinct(ls, x);
    }
    OrderIsTotal(o);
    SortedUnique(ks, ls, OrderOf(o));
  }

  lemma SortGivesListing(o: KeyOrder, ids: seq<string>, keys: set<string>)
    requires (forall i, j :: 0 <= i < j < |ids| ==> ids[i] != ids[j]) && (forall k :: k in keys <==> k in ids)
    ensures Sort(ids, OrderOf(o)) == SortedKeys(o, keys)
  {
    var s := Sort(ids, OrderOf(o));
    OrderIsTotal(o);
    SortCorrect(ids, OrderOf(o));
    forall k
      ensures k in s <==> k in ids
    {
      assert k in s <==> k in multiset(s);
      assert k in ids <==> k in multiset(ids);
    }
    forall i, j | 0 <= i < j < |s|
      ensures s[i] != s[j]
    {
      if s[i] == s[j] {
        Repeats(s, i, j);
        CountInDistinct(ids, s[i]);
      }
    }
    SortedKeysUnique(o, s, SortedKeys(o, keys), keys);
  }

  /** The keys in whatever order the map yields them. */
  method CollectKeys(m: map<string, Json>) returns (keys: seq<string>)
    ensures forall i, j :: 0 <= i < j < |keys| ==> keys[i] != keys[j]
    ensures forall k :: k in m.Keys <==> k in keys
  {
    keys := [];
    var todo := m.Keys;
    while todo != {}
      invariant todo <= m.Keys
      invariant forall i, j :: 0 <= i < j < |keys| ==> keys[i] != keys[j]
      invariant forall k :: k in keys <==> k in m.Keys && k !in todo
    {
      var k :| k in todo;
      todo := todo - {k};
      keys := keys + [k];
    }
  }

  /** Appends the quoted string. What follows it in the text is a ghost of its callers. */
  method WriteString(b: string, s: string, ghost rest: string) returns (b': string)
    ensures b' + rest == b + Quote(s, rest)
  {
    b' := b + QUOTE;
    for i := 0 to |s|
      invariant b' + Escaped(s[i..], rest) == b + Quote(s, rest)
    {
      assert s[i..][0] == s[i] && s[i..][1..] == s[i + 1..];
      b' := b' + Escape(s[i]);
    }
    assert s[|s|..] == [];
    b' := b' + QUOTE;
  }

  /** Appends the canonical text of `v`. */
  method JcsWrite(b: string, v: Json, ghost rest: string) returns (b': string)
    ensures b' + rest == b + Print(CodePoints, v, rest)
    decreases v, 1, 0
  {
    match v
    case Null => b' := b + "null";
    case Bool(x) => b' := b + if x then "true" else "false";
    case Num(n) => b' := b + Number(n);
    case Str(s) => b' := WriteString(b, s, rest);
    case Arr(items) => b' := WriteItems(b + "[", v, rest);
    case Obj(_) => b' := WriteObject(b, v, rest);
  }

  method WriteObject(b: string, v: Json, ghost rest: string) returns (b': string)
    requires v.Obj?
    ensures b' + rest == b + Print(CodePoints, v, rest)
    decreases v, 0, 1
  {
    var keys := CollectKeys(v.fields);
    SortGivesListing(CodePoints, keys, v.fields.Keys);
    b' := WriteFields(b + "{", v, Sort(keys, LexLe), rest);
  }

  method WriteItems(b: string, v: Json, ghost rest: string) returns (b': string)
    requires v.Arr?
    ensures b' + rest == b + PrintItems(CodePoints, v, 0, rest)
    decreases v, 0, 0
  {
    b' := b;
    for i := 0 to |v.items|
      invariant b' + PrintItems(CodePoints, v, i, rest) == b + PrintItems(CodePoints, v, 0, rest)
    {
      b' := WriteItem(b', i, v.items[i], PrintItems(CodePoints, v, i + 1, rest));
    }
    b' := b' + "]";
  }

  method WriteItem(b: string, i: nat, v: Json, ghost rest: string) returns (b': string)
    ensures b' + rest == b + (Comma(i) + Print(CodePoints, v, rest))
    decreases v, 2, 0
  {
    b' := if i > 0 then b + "," else b;
    assert b' == b + Comma(i);
    Regroup(b, Comma(i), Print(CodePoints, v, rest));
    b' := JcsWrite(b', v, rest);
  }

  method WriteFields(b: string, v: Json, ks: seq<string>, ghost rest: string) returns (b': string)
    requires HasKeys(v, ks)
    ensures b' + rest == b + PrintFields(CodePoints, v, ks, 0, rest)
    decreases v, 0, 0
  {
    b' := b;
    for i := 0 to |ks|
      invariant b' + PrintFields(CodePoints, v, ks, i, rest) == b + PrintFields(CodePoints, v, ks, 0, rest)
    {
      b' := WriteField(b', i, ks[i], v.fields[ks[i]], PrintFields(CodePoints, v, ks, i + 1, rest));
    }
    b' := b' + "}";
  }

  lemma Regroup(a: string, b: string, c: string)
    ensures a + b + c == a + (b + c)
  {
  }

  method WriteField(b: string, i: nat, k: string, v: Json, ghost rest: string) returns (b': string)
    ensures b' + rest == b + (Comma(i) + Quote(k, ":" + Print(CodePoints, v, rest)))
    decreases v, 2, 0
  {
    b' := if i > 0 then b + "," else b;
    assert b' == b + Comma(i);
    ghost var value := Print(CodePoints, v, rest);
    b' := WriteString(b', k, ":" + value);
    Regroup(b', ":", value);
    Regroup(b, Comma(i), Quote(k, ":" + value));
    b' := b' + ":";
    b' := JcsWrite(b', v, rest);
  }

  /** The canonical text of a decoded value, from which any reader of JSON gets the value back. */
  method Canonicalize(v: Json) returns (text: string)
    ensures text == Text(CodePoints, v) && ReadValue(text) == Some((v, []))
  {
    text := JcsWrite([], v, []);
    ReadBack(CodePoints, v, []);
    assert text + [] == text && [] + Text(CodePoints, v) == Text(CodePoints, v);
  }
}
