/** Agent addresses: an Ed25519 key regrouped into five-bit symbols, with a network prefix and a Bech32 checksum.

Text is a sequence of code points; `lower` stands for the Unicode lower-casing of the Go library, of which only the
ASCII part is assumed. */
module Address {
  import opened Collections
  import opened BitGroups
  import opened Bech32

  const TESTNET: string := "taet"
  const MAINNET: string := "aet"
  const CHARSET: string := "qpzry9x8gf2tvdw0s3jn54khce6mua7l"

  // ---- symbols and characters

  /** The index of `c` in the alphabet. */
  function Find(c: char, i: nat): Option<nat>
    decreases 32 - i
  {
    if i >= 32 then None else if CHARSET[i] == c then Some(i) else Find(c, i + 1)
  }

  lemma CharsetDistinct()
    ensures |CHARSET| == 32
    ensures forall i, j :: 0 <= i < j < 32 ==> CHARSET[i] != CHARSET[j]
  {
  }

  /** No capitals, no separator. */
  predicate Plain(c: char) {
    c < 128 as char && c != '1' && !('A' <= c <= 'Z')
  }

  lemma CharsetPlain()
    ensures forall i :: 0 <= i < 32 ==> Plain(CHARSET[i])
  {
  }

  lemma {:induction false} FindSound(c: char, i: nat)
    ensures Find(c, i).Some? ==> i <= Find(c, i).value < 32 && CHARSET[Find(c, i).value] == c
    decreases 32 - i
  {
    if i < 32 && CHARSET[i] != c {
      FindSound(c, i + 1);
    }
  }

  lemma {:induction false} FindComplete(d: nat, i: nat)
    requires i <= d < 32
    ensures Find(CHARSET[d], i) == Some(d)
    decreases 32 - i
  {
    CharsetDistinct();
    if i < d {
      FindComplete(d, i + 1);
    }
  }

  // ---- text

  predicate Symbolic(data: seq<nat>) {
    forall i :: 0 <= i < |data| ==> data[i] < 32
  }

  function TextOf(data: seq<nat>): (s: string)
    requires Symbolic(data)
    ensures |s| == |data|
  {
    seq(|data|, i requires 0 <= i < |data| => CHARSET[data[i]])
  }

  predicate AllFound(s: string) {
    forall i :: 0 <= i < |s| ==> Find(s[i], 0).Some?
  }

  function SymbolsOf(s: string): (data: seq<nat>)
    requires AllFound(s)
    ensures |data| == |s|
  {
    seq(|s|, i requires 0 <= i < |s| => Find(s[i], 0).value)
  }

  lemma TextOfSymbols(s: string)
    requires AllFound(s)
    ensures Symbolic(SymbolsOf(s)) && TextOf(SymbolsOf(s)) == s
  {
    forall i | 0 <= i < |s|
      ensures Find(s[i], 0).value < 32 && CHARSET[Find(s[i], 0).value] == s[i]
    {
      FindSound(s[i], 0);
    }
  }

  lemma SymbolsOfText(data: seq<nat>)
    requires Symbolic(data)
    ensures AllFound(TextOf(data)) && SymbolsOf(TextOf(data)) == data
  {
    forall i | 0 <= i < |data|
      ensures Find(CHARSET[data[i]], 0) == Some(data[i])
    {
      FindComplete(data[i], 0);
    }
  }

  function AsciiLower(c: char): char {
    if 'A' <= c <= 'Z' then c + 32 as char else c
  }

  ghost predicate LowersAscii(lower: char -> char) {
    forall c: char :: c < 128 as char ==> lower(c) == AsciiLower(c)
  }

  function ToLower(s: string, lower: char -> char): (t: string)
    ensures |t| == |s|
  {
    seq(|s|, i requires 0 <= i < |s| => lower(s[i]))
  }

  /** Length of the UTF-8 form. */
  function ByteLen(s: string): (n: nat)
    ensures n >= |s|
  {
    if s == [] then 0
    else
      var c := s[|s| - 1];
      ByteLen(s[..|s| - 1]) +
      (if c < 0x80 as char then 1 else if c < 0x800 as char then 2 else if c < 0x10000 as char then 3 else 4)
  }

  lemma {:induction false} AsciiLen(s: string)
    requires forall i :: 0 <= i < |s| ==> s[i] < 128 as char
    ensures ByteLen(s) == |s|
  {
    if s != [] {
      AsciiLen(s[..|s| - 1]);
    }
  }

  /** The last separator, or -1. */
  function LastOne(s: string): (pos: int)
    ensures -1 <= pos < |s|
    ensures pos >= 0 ==> s[pos] == '1'
  {
    if s == [] then -1 else if s[|s| - 1] == '1' then |s| - 1 else LastOne(s[..|s| - 1])
  }

  lemma {:induction false} LastOneAt(h: string, t: string)
    requires forall i :: 0 <= i < |t| ==> t[i] != '1'
    ensures LastOne(h + "1" + t) == |h|
  {
    var s := h + "1" + t;
    if t != [] {
      var t' := t[..|t| - 1];
      assert s[..|s| - 1] == h + "1" + t';
      LastOneAt(h, t');
    }
  }

  // ---- encoding and decoding

  /** Prefix, separator, symbols, checksum; an error if some value is not a symbol. */
  ghost function Encode(hrp: string, data: seq<nat>): Option<string> {
    if !Symbolic(data) then None
    else
      ChecksumSymbolic(hrp, data);
      Some(hrp + "1" + TextOf(data + Checksum(hrp, data)))
  }

  /** The symbols 0 to 31 behind the prefix "abcdef", as in the test vectors of BIP-173, up to the checksum. */
  lemma AlphabetText(data: seq<nat>)
    requires |data| == 32 && forall i :: 0 <= i < 32 ==> data[i] == i
    ensures var s := Encode("abcdef", data);
      s.Some? && |s.value| == 45 && s.value[..39] == "abcdef1" + "qpzry9x8gf2tvdw0s3jn54khce6mua7l"
  {
    ChecksumSymbolic("abcdef", data);
    var all := data + Checksum("abcdef", data);
    AlphabetInOrder(data, all);
    assert "abcdef" + "1" == "abcdef1";
    StartsWith("abcdef1", TextOf(all), 32);
  }

  lemma AlphabetInOrder(data: seq<nat>, all: seq<nat>)
    requires |data| == 32 && (forall i :: 0 <= i < 32 ==> data[i] == i) && Symbolic(all) && data <= all
    ensures TextOf(all)[..32] == CHARSET
  {
    CharsetDistinct();
    forall i | 0 <= i < 32
      ensures TextOf(all)[i] == CHARSET[i]
    {
      assert all[i] == data[i];
    }
  }

  lemma StartsWith(a: string, b: string, n: nat)
    requires n <= |b|
    ensures (a + b)[..|a| + n] == a + b[..n]
  {
  }

  lemma SymbolicIsGroups(data: seq<nat>)
    ensures Symbolic(data) <==> Groups(data, 5)
  {
    assert Shl(1, 5) == 32 by { assert Shl(1, 3) == 8; }
  }

  lemma ChecksumSymbolic(hrp: string, data: seq<nat>)
    ensures Symbolic(Checksum(hrp, data))
    ensures Symbolic(data) ==> Symbolic(data + Checksum(hrp, data))
  {
    ChecksumShape(hrp, data);
    SymbolicIsGroups(Checksum(hrp, data));
  }

  datatype Decoded = Decoded(hrp: string, data: seq<nat>)

  /** At most 90 bytes; lower-cased, a non-empty prefix before the last separator and at least six symbols after it,
  the last six of them the checksum. */
  function Decode(s: string, lower: char -> char): Option<Decoded> {
    var t := ToLower(s, lower);
    var pos := LastOne(t);
    if ByteLen(s) > 90 then None
    else if pos < 1 || ByteLen(t[pos + 1..]) < 6 then None
    else if !AllFound(t[pos + 1..]) then None
    else if !Verifies(t[..pos], SymbolsOf(t[pos + 1..])) then None
    else
      AsciiFound(t[pos + 1..]);
      Some(Decoded(t[..pos], SymbolsOf(t[pos + 1..])[..|t| - pos - 7]))
  }

  lemma AsciiFound(s: string)
    requires AllFound(s)
    ensures ByteLen(s) == |s|
    ensures forall i :: 0 <= i < |s| ==> Plain(s[i])
  {
    CharsetPlain();
    forall i | 0 <= i < |s|
      ensures Plain(s[i])
    {
      FindSound(s[i], 0);
    }
    AsciiLen(s);
  }

  /** A text that is, lower-cased, a prefix, a separator and a verifying part decodes to these. */
  lemma DecodeLowered(s: string, hrp: string, text: string, lower: char -> char)
    requires ByteLen(s) <= 90 && ToLower(s, lower) == hrp + "1" + text && hrp != ""
    requires AllFound(text) && |text| >= 6 && Verifies(hrp, SymbolsOf(text))
    ensures Decode(s, lower) == Some(Decoded(hrp, SymbolsOf(text)[..|text| - 6]))
  {
    var t := hrp + "1" + text;
    AsciiFound(text);
    LastOneAt(hrp, text);
    assert t[..|hrp|] == hrp && t[|hrp| + 1..] == text;
  }

  ghost predicate EncodesAs(hrp: string, data: seq<nat>, t: string) {
    hrp != "" && Encode(hrp, data) == Some(t)
  }

  /** A text of at most 90 bytes that is, lower-cased, an encoding decodes to what was encoded. */
  lemma EncodingDecodes(hrp: string, data: seq<nat>, s: string, lower: char -> char)
    requires ByteLen(s) <= 90 && EncodesAs(hrp, data, ToLower(s, lower))
    ensures Decode(s, lower) == Some(Decoded(hrp, data))
  {
    ChecksumSymbolic(hrp, data);
    var c := Checksum(hrp, data);
    var all := data + c;
    SymbolsOfText(all);
    SymbolicIsGroups(c);
    ChecksumUnique(hrp, data, c);
    DecodeLowered(s, hrp, TextOf(all), lower);
    assert all[..|all| - 6] == data;
  }

  lemma {:induction false} JoinedLen(hrp: string, text: string)
    requires Ascii(text)
    ensures ByteLen(hrp + text) == ByteLen(hrp) + |text|
  {
    if text == [] {
      assert hrp + text == hrp;
    } else {
      var front := text[..|text| - 1];
      JoinedLen(hrp, front);
      assert (hrp + text)[..|hrp + text| - 1] == hrp + front;
    }
  }

  /** What follows the prefix is small and plain. */
  lemma EncodedTail(hrp: string, data: seq<nat>) returns (tail: string)
    requires Symbolic(data)
    ensures Encode(hrp, data) == Some(hrp + tail) && |tail| == |data| + 7
    ensures Ascii(tail) && forall i :: 0 <= i < |tail| ==> !IsUpper(tail[i])
  {
    ChecksumSymbolic(hrp, data);
    ChecksumShape(hrp, data);
    var text := TextOf(data + Checksum(hrp, data));
    SymbolsOfText(data + Checksum(hrp, data));
    AsciiFound(text);
    tail := "1" + text;
    assert hrp + "1" + text == hrp + tail;
  }

  /** Decoding recovers what was encoded, for every prefix in lower case that leaves room in 90 bytes. */
  lemma EncodeDecode(hrp: string, data: seq<nat>, lower: char -> char)
    requires LowersAscii(lower) && Symbolic(data)
    requires hrp != "" && ToLower(hrp, lower) == hrp && ByteLen(hrp) + |data| + 7 <= 90
    ensures Encode(hrp, data).Some? && Decode(Encode(hrp, data).value, lower) == Some(Decoded(hrp, data))
  {
    var tail := EncodedTail(hrp, data);
    JoinedLen(hrp, tail);
    JoinedLower(hrp, tail, lower);
    EncodingDecodes(hrp, data, hrp + tail, lower);
  }

  lemma JoinedLower(hrp: string, text: string, lower: char -> char)
    requires LowersAscii(lower) && ToLower(hrp, lower) == hrp && Ascii(text)
    requires forall i :: 0 <= i < |text| ==> !IsUpper(text[i])
    ensures ToLower(hrp + text, lower) == hrp + text
  {
    var s := hrp + text;
    forall i | 0 <= i < |s|
      ensures lower(s[i]) == s[i]
    {
      assert i < |hrp| ==> ToLower(hrp, lower)[i] == lower(hrp[i]);
    }
  }

  lemma Unchanged(s: string, lower: char -> char)
    requires LowersAscii(lower)
    requires forall i :: 0 <= i < |s| ==> s[i] < 128 as char && !('A' <= s[i] <= 'Z')
    ensures ToLower(s, lower) == s
  {
  }

  /** The parts of a text that decodes. */
  lemma DecodedParts(s: string, lower: char -> char) returns (hrp: string, text: string)
    requires Decode(s, lower).Some?
    ensures ToLower(s, lower) == hrp + "1" + text
    ensures AllFound(text) && |text| >= 6 && Verifies(hrp, SymbolsOf(text))
    ensures Decode(s, lower).value == Decoded(hrp, SymbolsOf(text)[..|text| - 6])
  {
    var t := ToLower(s, lower);
    var pos := LastOne(t);
    hrp, text := t[..pos], t[pos + 1..];
    AsciiFound(text);
    SplitAt(t, pos);
  }

  lemma SplitAt(t: string, pos: nat)
    requires pos < |t| && t[pos] == '1'
    ensures t == t[..pos] + "1" + t[pos + 1..]
  {
  }

  /** Whatever decodes is, lower-cased, the encoding of what it decodes to: there is no second text for it. */
  lemma DecodeEncode(s: string, lower: char -> char)
    requires Decode(s, lower).Some?
    ensures var d := Decode(s, lower).value;
      Symbolic(d.data) && Encode(d.hrp, d.data) == Some(ToLower(s, lower))
  {
    var hrp, text := DecodedParts(s, lower);
    var all := SymbolsOf(text);
    TextOfSymbols(text);
    VerifiedEnds(hrp, all);
    assert Encode(hrp, all[..|all| - 6]) == Some(hrp + "1" + text);
  }

  lemma VerifiedEnds(hrp: string, all: seq<nat>)
    requires Symbolic(all) && |all| >= 6 && Verifies(hrp, all)
    ensures var data := all[..|all| - 6]; Symbolic(data) && all == data + Checksum(hrp, data)
  {
    var data, c := all[..|all| - 6], all[|all| - 6..];
    assert all == data + c;
    SymbolicIsGroups(c);
    ChecksumUnique(hrp, data, c);
  }

  // ---- keys

  ghost predicate IsKey(key: seq<nat>) {
    |key| == 32 && Groups(key, 8)
  }

  function Prefix(testnet: bool): string {
    if testnet then TESTNET else MAINNET
  }

  ghost function KeyAddress(key: seq<nat>, testnet: bool): Option<string> {
    if |key| != 32 then None else Encode(Prefix(testnet), Repack(key))
  }

  ghost function AddressKey(s: string, lower: char -> char): Option<(seq<nat>, string)> {
    match Decode(s, lower)
    case None => None
    case Some(d) =>
      if d.hrp != TESTNET && d.hrp != MAINNET then None
      else match Unpack(d.data)
        case None => None
        case Some(key) => if |key| != 32 then None else Some((key, d.hrp))
  }

  /** Every key has an address on each network, and the address gives the key and the network back. */
  lemma KeyRoundTrip(key: seq<nat>, testnet: bool, lower: char -> char)
    requires IsKey(key) && LowersAscii(lower)
    ensures KeyAddress(key, testnet).Some?
    ensures AddressKey(KeyAddress(key, testnet).value, lower) == Some((key, Prefix(testnet)))
  {
    BytesSurvive(key);
    SymbolicIsGroups(Repack(key));
    Unchanged(Prefix(testnet), lower);
    AsciiLen(Prefix(testnet));
    EncodeDecode(Prefix(testnet), Repack(key), lower);
  }

  /** Canonicity: an accepted address, lower-cased, is the address of its key, so a key has one address per network up
  to letter case. */
  lemma AddressCanonical(s: string, lower: char -> char)
    requires AddressKey(s, lower).Some?
    ensures var (key, hrp) := AddressKey(s, lower).value;
      && IsKey(key) && (hrp == TESTNET || hrp == MAINNET)
      && KeyAddress(key, hrp == TESTNET) == Some(ToLower(s, lower))
  {
    DecodeEncode(s, lower);
    var d := Decode(s, lower).value;
    SymbolicIsGroups(d.data);
    SymbolsSurvive(d.data, Unpack(d.data).value);
  }

  lemma OneAddressPerKey(s: string, s': string, lower: char -> char)
    requires AddressKey(s, lower).Some? && AddressKey(s, lower) == AddressKey(s', lower)
    ensures ToLower(s, lower) == ToLower(s', lower)
  {
    AddressCanonical(s, lower);
    AddressCanonical(s', lower);
  }

  // ---- letter case

  predicate IsUpper(c: char) {
    'A' <= c <= 'Z'
  }

  predicate IsLower(c: char) {
    'a' <= c <= 'z'
  }

  /** Capitals and small letters together, which BIP-173 asks decoders to refuse. */
  ghost predicate Mixed(s: string) {
    exists i, j :: 0 <= i < |s| && 0 <= j < |s| && IsUpper(s[i]) && IsLower(s[j])
  }

  ghost predicate Ascii(s: string) {
    forall i :: 0 <= i < |s| ==> s[i] < 128 as char
  }

  /** The decoder cannot tell: texts of at most 90 bytes that agree when lower-cased are accepted or refused alike. */
  lemma CaseIgnored(s: string, s': string, lower: char -> char)
    requires ToLower(s, lower) == ToLower(s', lower) && ByteLen(s) <= 90 && ByteLen(s') <= 90
    ensures Decode(s, lower) == Decode(s', lower)
  {
  }

  lemma LoweredDecodesAlike(s: string, lower: char -> char)
    requires LowersAscii(lower) && Ascii(s)
    ensures Decode(s, lower) == Decode(ToLower(s, lower), lower)
  {
    var t := ToLower(s, lower);
    LoweredSmall(s, lower);
    Unchanged(t, lower);
    AsciiLen(s);
    AsciiLen(t);
    if |s| <= 90 {
      CaseIgnored(s, t, lower);
    }
  }

  lemma LoweredSmall(s: string, lower: char -> char)
    requires LowersAscii(lower) && Ascii(s)
    ensures var t := ToLower(s, lower); forall i :: 0 <= i < |t| ==> t[i] < 128 as char && !('A' <= t[i] <= 'Z')
  {
  }

  /** The text is the encoding of something with a non-empty prefix. */
  ghost predicate IsEncoding(t: string) {
    exists hrp, data :: EncodesAs(hrp, data, t)
  }

  /** Any text decodes exactly when it has at most 90 bytes and is, lower-cased, an encoding. */
  lemma DecodesIffEncoding(s: string, lower: char -> char)
    ensures Decode(s, lower).Some? <==> ByteLen(s) <= 90 && IsEncoding(ToLower(s, lower))
  {
    if Decode(s, lower).Some? {
      DecodeEncode(s, lower);
      var d := Decode(s, lower).value;
      assert EncodesAs(d.hrp, d.data, ToLower(s, lower));
    } else if ByteLen(s) <= 90 && IsEncoding(ToLower(s, lower)) {
      var hrp, data :| EncodesAs(hrp, data, ToLower(s, lower));
      EncodingDecodes(hrp, data, s, lower);
    }
  }

  /** The rule of BIP-173 is kept on a text if and only if the text is not mixed, is too long, or is in lower case not
  the encoding of anything. */
  lemma MixedRefusedIff(s: string, lower: char -> char)
    ensures (Mixed(s) ==> Decode(s, lower).None?) <==>
            !Mixed(s) || ByteLen(s) > 90 || !IsEncoding(ToLower(s, lower))
  {
    DecodesIffEncoding(s, lower);
  }

  /** The text with its first letter raised. */
  function Raised(s: string): (t: string)
    requires s != []
    ensures |t| == |s|
  {
    if IsLower(s[0]) then s[0 := s[0] - 32 as char] else s
  }

  lemma TextPlain(all: seq<nat>)
    requires Symbolic(all)
    ensures forall i :: 0 <= i < |all| ==> Plain(TextOf(all)[i])
  {
    SymbolsOfText(all);
    AsciiFound(TextOf(all));
  }

  lemma PrefixLetters(testnet: bool)
    ensures |Prefix(testnet)| >= 2 && forall i :: 0 <= i < |Prefix(testnet)| ==> IsLower(Prefix(testnet)[i])
  {
  }

  lemma JoinedStarts(hrp: string, text: string)
    requires |hrp| >= 2 && (forall i :: 0 <= i < |hrp| ==> IsLower(hrp[i]))
    requires forall i :: 0 <= i < |text| ==> Plain(text[i])
    ensures var a := hrp + "1" + text;
      && |a| >= 2 && IsLower(a[0]) && IsLower(a[1]) && Ascii(a) && forall i :: 0 <= i < |a| ==> !IsUpper(a[i])
  {
    var a := hrp + "1" + text;
    forall i | 0 <= i < |a|
      ensures a[i] < 128 as char && !IsUpper(a[i])
    {
      assert a[i] == if i < |hrp| then hrp[i] else if i == |hrp| then '1' else text[i - |hrp| - 1];
    }
    assert a[0] == hrp[0] && a[1] == hrp[1];
  }

  lemma AddressStarts(key: seq<nat>, testnet: bool)
    requires IsKey(key)
    ensures var a := KeyAddress(key, testnet);
      && a.Some? && |a.value| >= 2 && IsLower(a.value[0]) && IsLower(a.value[1]) && Ascii(a.value)
      && forall i :: 0 <= i < |a.value| ==> !IsUpper(a.value[i])
  {
    BytesSurvive(key);
    SymbolicIsGroups(Repack(key));
    var hrp, data := Prefix(testnet), Repack(key);
    ChecksumSymbolic(hrp, data);
    var all := data + Checksum(hrp, data);
    TextPlain(all);
    PrefixLetters(testnet);
    JoinedStarts(hrp, TextOf(all));
  }

  lemma RaisedMixes(a: string, lower: char -> char)
    requires LowersAscii(lower) && Ascii(a) && |a| >= 2 && IsLower(a[0]) && IsLower(a[1])
    requires forall i :: 0 <= i < |a| ==> !IsUpper(a[i])
    ensures Mixed(Raised(a)) && Ascii(Raised(a)) && ToLower(Raised(a), lower) == a
  {
    var s := Raised(a);
    assert IsUpper(s[0]) && IsLower(s[1]);
  }

  lemma SameDecodedSameKey(s: string, t: string, lower: char -> char)
    requires Decode(s, lower) == Decode(t, lower)
    ensures AddressKey(s, lower) == AddressKey(t, lower)
  {
  }

  /** Every key has, on each network, a mixed-case address that is accepted. */
  lemma MixedCaseAccepted(key: seq<nat>, testnet: bool, lower: char -> char)
    requires IsKey(key) && LowersAscii(lower)
    ensures var a := KeyAddress(key, testnet);
      && a.Some? && a.value != [] && Mixed(Raised(a.value))
      && AddressKey(Raised(a.value), lower) == Some((key, Prefix(testnet)))
  {
    KeyRoundTrip(key, testnet, lower);
    AddressStarts(key, testnet);
    RaisedKey(KeyAddress(key, testnet).value, lower);
  }

  lemma RaisedKey(a: string, lower: char -> char)
    requires LowersAscii(lower) && Ascii(a) && |a| >= 2 && IsLower(a[0]) && IsLower(a[1])
    requires forall i :: 0 <= i < |a| ==> !IsUpper(a[i])
    ensures Mixed(Raised(a)) && AddressKey(Raised(a), lower) == AddressKey(a, lower)
  {
    RaisedMixes(a, lower);
    LoweredDecodesAlike(Raised(a), lower);
    SameDecodedSameKey(Raised(a), a, lower);
  }

  // ---- the code

  ghost predicate Spells(text: string, data: seq<nat>, n: nat) {
    |text| == n <= |data| && forall j :: 0 <= j < n ==> data[j] < 32 && text[j] == CHARSET[data[j]]
  }

  lemma SpeltOut(hrp: string, data: seq<nat>, text: string)
    requires var all := data + Checksum(hrp, data); Spells(text, all, |all|)
    ensures Encode(hrp, data) == Some(hrp + "1" + text)
  {
    var all := data + Checksum(hrp, data);
    assert forall i :: 0 <= i < |data| ==> all[i] == data[i];
    ChecksumSymbolic(hrp, data);
    assert text == TextOf(all);
  }

  lemma NotSpelt(hrp: string, data: seq<nat>, i: nat)
    requires i < |data + Checksum(hrp, data)| && (data + Checksum(hrp, data))[i] >= 32
    ensures Encode(hrp, data).None?
  {
    ChecksumSymbolic(hrp, data);
  }

  method Bech32Encode(hrp: string, data: seq<nat>) returns (r: Option<string>)
    ensures r == Encode(hrp, data)
  {
    var chk := CreateChecksum(hrp, data);
    var combined := data + chk;
    var text: string := "";
    for i := 0 to |combined|
      invariant Spells(text, combined, i)
    {
      if combined[i] >= 32 {
        NotSpelt(hrp, data, i);
        return None;
      }
      text := text + [CHARSET[combined[i]]];
    }
    SpeltOut(hrp, data, text);
    return Some(hrp + "1" + text);
  }

  method Bech32Decode(s: string, lower: char -> char) returns (r: Option<Decoded>)
    ensures r == Decode(s, lower)
  {
    if ByteLen(s) > 90 {
      return None;
    }
    var t := ToLower(s, lower);
    var pos := LastOne(t);
    if pos < 1 || ByteLen(t[pos + 1..]) < 6 {
      return None;
    }
    var hrp, text := t[..pos], t[pos + 1..];
    var data: seq<nat> := [];
    for i := 0 to |text|
      invariant |data| == i
      invariant forall j :: 0 <= j < i ==> Find(text[j], 0) == Some(data[j])
    {
      var d := Find(text[i], 0);
      if d.None? {
        return None;
      }
      data := data + [d.value];
    }
    assert data == SymbolsOf(text);
    var chk := ComputePolymod(HrpExpand(hrp) + data);
    if chk != ONE {
      return None;
    }
    AsciiFound(text);
    return Some(Decoded(hrp, data[..|data| - 6]));
  }

  method AddressFromPublicKey(key: seq<nat>, testnet: bool) returns (r: Option<string>)
    requires Groups(key, 8)
    ensures r == KeyAddress(key, testnet)
  {
    if |key| != 32 {
      return None;
    }
    var hrp := MAINNET;
    if testnet {
      hrp := TESTNET;
    }
    var data := ToSymbols(key);
    r := Bech32Encode(hrp, data);
  }

  method PublicKeyFromAddress(s: string, lower: char -> char) returns (r: Option<(seq<nat>, string)>)
    ensures r == AddressKey(s, lower)
  {
    var d := Bech32Decode(s, lower);
    if d.None? {
      return None;
    }
    if d.value.hrp != TESTNET && d.value.hrp != MAINNET {
      return None;
    }
    DecodeEncode(s, lower);
    SymbolicIsGroups(d.value.data);
    var key := ToBytes(d.value.data);
    if key.None? {
      return None;
    }
    if |key.value| != 32 {
      return None;
    }
    return Some((key.value, d.value.hrp));
  }
}
