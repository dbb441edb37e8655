/** The key order of canonical JSON. Section 3.2.3 of RFC 8785 sorts keys by UTF-16 code unit, the code sorts them by
code point. */
module CanonicalOrder {
  import opened KeyOrders
  import opened JsonText
  import opened CanonicalJson

  // ---- one object

  /** No two keys on which the orders disagree. */
  ghost predicate NoClash(keys: set<string>) {
    forall a, b :: a in keys && b in keys ==> !Clash(a, b)
  }

  lemma SortedBoth(ks: seq<string>, keys: set<string>)
    requires SortedListing(CodePoints, ks, keys) && NoClash(keys)
    ensures SortedListing(CodeUnits, ks, keys)
  {
    forall i, j | 0 <= i < j < |ks|
      ensures Utf16Le(ks[i], ks[j])
    {
      assert ks[i] in keys && ks[j] in keys;
      OrdersDisagree(ks[i], ks[j]);
      assert OrderOf(CodePoints)(ks[i], ks[j]);
    }
  }

  lemma AgreedOn(ks: seq<string>, keys: set<string>, a: string, b: string)
    requires SortedListing(CodePoints, ks, keys) && SortedListing(CodeUnits, ks, keys) && a in keys && b in keys
    ensures !Clash(a, b)
  {
    var i :| 0 <= i < |ks| && ks[i] == a;
    var j :| 0 <= j < |ks| && ks[j] == b;
    OrdersDisagree(a, b);
    OrdersDisagree(b, a);
    ClashSymmetric(a, b);
    if i < j {
      assert OrderOf(CodePoints)(a, b) && OrderOf(CodeUnits)(a, b);
    } else if j < i {
      assert OrderOf(CodePoints)(b, a) && OrderOf(CodeUnits)(b, a);
    }
  }

  lemma ClashSymmetric(a: string, b: string)
    ensures Clash(a, b) ==> a != b && Clash(b, a)
  {
    if i: nat :| ClashAt(a, b, i) {
      assert ClashAt(b, a, i);
    }
  }

  /** A key set has the same listing in both orders if and only if it holds no such pair. */
  lemma SameListing(keys: set<string>)
    ensures SortedKeys(CodePoints, keys) == SortedKeys(CodeUnits, keys) <==> NoClash(keys)
  {
    var ks, ls := SortedKeys(CodePoints, keys), SortedKeys(CodeUnits, keys);
    if NoClash(keys) {
      SortedBoth(ks, keys);
      SortedKeysUnique(CodeUnits, ks, ls, keys);
    }
    if ks == ls {
      forall a, b | a in keys && b in keys
        ensures !Clash(a, b)
      {
        AgreedOn(ks, keys, a, b);
      }
    }
  }

  // ---- whole texts

  lemma {:induction false} SamePrint(o: KeyOrder, o': KeyOrder, v: Json, rest: string)
    requires SameOrder(o, o', v)
    ensures Print(o, v, rest) == Print(o', v, rest)
    decreases v, 1, 0
  {
    match v
    case Arr(items) => SameItems(o, o', v, 0, rest);
    case Obj(fields) => SameFieldTexts(o, o', v, SortedKeys(o, fields.Keys), 0, rest);
    case _ =>
  }

  lemma {:induction false} SameItems(o: KeyOrder, o': KeyOrder, v: Json, i: nat, rest: string)
    requires v.Arr? && SameOrder(o, o', v) && i <= |v.items|
    ensures PrintItems(o, v, i, rest) == PrintItems(o', v, i, rest)
    decreases v, 0, |v.items| - i
  {
    if i < |v.items| {
      SameItems(o, o', v, i + 1, rest);
      SamePrint(o, o', v.items[i], PrintItems(o, v, i + 1, rest));
    }
  }

  lemma {:induction false} SameFieldTexts(o: KeyOrder, o': KeyOrder, v: Json, ks: seq<string>, i: nat, rest: string)
    requires HasKeys(v, ks) && SameOrder(o, o', v) && i <= |ks|
    ensures PrintFields(o, v, ks, i, rest) == PrintFields(o', v, ks, i, rest)
    decreases v, 0, |ks| - i
  {
    if i < |ks| {
      SameFieldTexts(o, o', v, ks, i + 1, rest);
      SamePrint(o, o', v.fields[ks[i]], PrintFields(o, v, ks, i + 1, rest));
    }
  }

  /** Two key orders give a value the same text if and only if they list the keys of all its objects alike. */
  lemma SameTextIffSameOrder(o: KeyOrder, o': KeyOrder, v: Json)
    ensures Text(o, v) == Text(o', v) <==> SameOrder(o, o', v)
  {
    if SameOrder(o, o', v) {
      SamePrint(o, o', v, []);
    }
    if Text(o, v) == Text(o', v) {
      PrintRead(o, v, [], o', v, []);
    }
  }

  /** No object in `v` has two keys on which the orders disagree. */
  ghost predicate ClashFree(v: Json) {
    match v
    case Arr(items) => forall i :: 0 <= i < |items| ==> ClashFree(items[i])
    case Obj(fields) => NoClash(fields.Keys) && forall k :: k in fields ==> ClashFree(fields[k])
    case _ => true
  }

  lemma {:induction false} SameOrderIffClashFree(v: Json)
    ensures SameOrder(CodePoints, CodeUnits, v) <==> ClashFree(v)
  {
    match v
    case Arr(items) =>
      forall i | 0 <= i < |items|
        ensures SameOrder(CodePoints, CodeUnits, items[i]) <==> ClashFree(items[i])
      {
        SameOrderIffClashFree(items[i]);
      }
    case Obj(fields) =>
      SameListing(fields.Keys);
      forall k | k in fields
        ensures SameOrder(CodePoints, CodeUnits, fields[k]) <==> ClashFree(fields[k])
      {
        SameOrderIffClashFree(fields[k]);
      }
    case _ =>
  }

  /** The text of the code is the one in the order of RFC 8785 if and only if no object has two keys that first differ
  in a character from U+10000 on and one in U+E000 to U+FFFF. */
  lemma RfcOrderIffClashFree(v: Json)
    ensures Text(CodePoints, v) == Text(CodeUnits, v) <==> ClashFree(v)
  {
    SameTextIffSameOrder(CodePoints, CodeUnits, v);
    SameOrderIffClashFree(v);
  }

  lemma ClashingKeys(v: Json, a: string, b: string)
    requires v.Obj? && a in v.fields && b in v.fields && Clash(a, b)
    ensures Text(CodePoints, v) != Text(CodeUnits, v)
  {
    RfcOrderIffClashFree(v);
    assert !NoClash(v.fields.Keys);
  }

  /** An object with two such keys, printed in another order than RFC 8785 asks for. */
  lemma RfcOrderMissed() returns (v: Json)
    ensures v.Obj? && v.fields == map["\U{E000}" := Null, "\U{10000}" := Null]
    ensures Text(CodePoints, v) != Text(CodeUnits, v)
  {
    var a, b := "\U{E000}", "\U{10000}";
    assert ClashAt(a, b, 0);
    v := Obj(map[a := Null, b := Null]);
    ClashingKeys(v, a, b);
  }
}
