/** JSON values, and a reader of their text after the grammar of RFC 8259: what a text means, apart from any printer.
Numbers are integers. */
module JsonText {
  import opened Collections

  datatype Json =
    | Null
    | Bool(b: bool)
    | Num(n: int)
    | Str(s: string)
    | Arr(items: seq<Json>)
    | Obj(fields: map<string, Json>)

  /** What was read, and what follows it. */
  type Read<T> = Option<(T, string)>

  // ---- white space and numbers

  predicate IsSpace(c: char) {
    c == ' ' || c == '\t' || c == '\n' || c == '\r'
  }

  function SkipSpace(s: string): (t: string)
    ensures |t| <= |s|
  {
    if s != [] && IsSpace(s[0]) then SkipSpace(s[1..]) else s
  }

  /** Reads one character, if it is this. */
  function Expect(c: char, s: string): (r: Option<string>)
    ensures r.Some? ==> |r.value| < |s|
  {
    if s != [] && s[0] == c then Some(s[1..]) else None
  }

  predicate IsDigit(c: char) {
    '0' <= c <= '9'
  }

  /** The digits at the head, with `n` read before them. */
  function ReadDigits(s: string, n: nat): (r: (nat, string))
    ensures |r.1| <= |s|
  {
    if s != [] && IsDigit(s[0]) then ReadDigits(s[1..], 10 * n + (s[0] as int - '0' as int)) else (n, s)
  }

  /** A zero, or digits that do not start with one. */
  function ReadNat(s: string): (r: Read<nat>)
    ensures r.Some? ==> |r.value.1| < |s|
  {
    if s == [] || !IsDigit(s[0]) then None
    else if s[0] == '0' then Some((0, s[1..]))
    else Some(ReadDigits(s[1..], s[0] as int - '0' as int))
  }

  function ReadInt(s: string): (r: Read<int>)
    ensures r.Some? ==> |r.value.1| < |s|
  {
    var minus := Expect('-', s).Some?;
    match ReadNat(if minus then s[1..] else s)
    case Some((n, rest)) => Some((if minus then 0 - n else n, rest))
    case None => None
  }

  // ---- strings

  function HexValue(c: char): (d: Option<nat>)
    ensures d.Some? ==> d.value < 16
  {
    if IsDigit(c) then Some(c as int - '0' as int)
    else if 'a' <= c <= 'f' then Some(c as int - 'a' as int + 10)
    else if 'A' <= c <= 'F' then Some(c as int - 'A' as int + 10)
    else None
  }

  /** Four hexadecimal digits. */
  function ReadHex(s: string): (r: Read<nat>)
    ensures r.Some? ==> r.value.0 < 0x10000 && |r.value.1| < |s|
  {
    if |s| < 4 || exists i :: 0 <= i < 4 && HexValue(s[i]).None? then None
    else
      var a, b, c, d := HexValue(s[0]).value, HexValue(s[1]).value, HexValue(s[2]).value, HexValue(s[3]).value;
      Some((16 * (16 * (16 * a + b) + c) + d, s[4..]))
  }

  /** The character behind `\u`: one code unit, or a surrogate pair. */
  function ReadUnicode(s: string): (r: Read<char>)
    ensures r.Some? ==> |r.value.1| < |s|
  {
    match ReadHex(s)
    case None => None
    case Some((u, rest)) =>
      if u < 0xD800 || 0xE000 <= u then Some((u as char, rest))
      else if 0xDC00 <= u || |rest| < 2 || rest[0] != '\\' || rest[1] != 'u' then None
      else
        match ReadHex(rest[2..])
        case Some((w, after)) =>
          if 0xDC00 <= w < 0xE000 then Some(((0x10000 + (u - 0xD800) * 0x400 + (w - 0xDC00)) as char, after)) else None
        case None => None
  }

  /** The character that a letter behind a backslash stands for. */
  function Unescaped(c: char): Option<char> {
    if c == '\"' || c == '\\' || c == '/' then Some(c)
    else if c == 'b' then Some(8 as char)
    else if c == 'f' then Some(12 as char)
    else if c == 'n' then Some('\n')
    else if c == 'r' then Some('\r')
    else if c == 't' then Some('\t')
    else None
  }

  /** One character inside a string, escaped or not; quotes and control characters do not stand for themselves. */
  function ReadChar(s: string): (r: Read<char>)
    ensures r.Some? ==> |r.value.1| < |s|
  {
    if s == [] || s[0] == '\"' || s[0] < 32 as char then None
    else if s[0] != '\\' then Some((s[0], s[1..]))
    else if |s| < 2 then None
    else if s[1] == 'u' then ReadUnicode(s[2..])
    else
      match Unescaped(s[1])
      case Some(c) => Some((c, s[2..]))
      case None => None
  }

  /** Characters up to the closing quote. */
  function ReadChars(s: string): (r: Read<string>)
    ensures r.Some? ==> |r.value.1| < |s|
  {
    if s != [] && s[0] == '\"' then Some(([], s[1..]))
    else
      match ReadChar(s)
      case None => None
      case Some((c, rest)) =>
        match ReadChars(rest)
        case None => None
        case Some((cs, after)) => Some(([c] + cs, after))
  }

  function ReadString(s: string): (r: Read<string>)
    ensures r.Some? ==> |r.value.1| < |s|
  {
    match Expect('\"', s)
    case Some(t) => ReadChars(t)
    case None => None
  }

  // ---- values

  function ReadWord(word: string, v: Json, s: string): (r: Read<Json>)
    requires word != []
    ensures r.Some? ==> |r.value.1| < |s|
  {
    if word <= s then Some((v, s[|word|..])) else None
  }

  function ReadValue(text: string): (r: Read<Json>)
    ensures r.Some? ==> |r.value.1| < |text|
    decreases |text|, 0
  {
    var s := SkipSpace(text);
    if s == [] then None
    else if s[0] == 'n' then ReadWord("null", Null, s)
    else if s[0] == 't' then ReadWord("true", Bool(true), s)
    else if s[0] == 'f' then ReadWord("false", Bool(false), s)
    else if s[0] == '\"' then
      (match ReadString(s)
       case Some((cs, rest)) => Some((Str(cs), rest))
       case None => None)
    else if s[0] == '[' then ReadArray(s[1..])
    else if s[0] == '{' then ReadObject(s[1..])
    else
      (match ReadInt(s)
       case Some((n, rest)) => Some((Num(n), rest))
       case None => None)
  }

  /** What is behind an opening bracket. */
  function ReadArray(s: string): (r: Read<Json>)
    ensures r.Some? ==> |r.value.1| < |s|
    decreases |s|, 3
  {
    var t := SkipSpace(s);
    match Expect(']', t)
    case Some(rest) => Some((Arr([]), rest))
    case None => ReadItems(t, [])
  }

  /** What is behind an opening brace. */
  function ReadObject(s: string): (r: Read<Json>)
    ensures r.Some? ==> |r.value.1| < |s|
    decreases |s|, 3
  {
    var t := SkipSpace(s);
    match Expect('}', t)
    case Some(rest) => Some((Obj(map[]), rest))
    case None => ReadFields(t, map[])
  }

  /** Values between commas, up to the closing bracket, behind those read before. */
  function ReadItems(s: string, items: seq<Json>): (r: Read<Json>)
    ensures r.Some? ==> |r.value.1| < |s|
    decreases |s|, 1
  {
    match ReadValue(s)
    case None => None
    case Some((v, rest)) =>
      var t := SkipSpace(rest);
      if t != [] && t[0] == ',' then ReadItems(t[1..], items + [v])
      else
        match Expect(']', t)
        case Some(after) => Some((Arr(items + [v]), after))
        case None => None
  }

  /** A key, a colon, a value. */
  function ReadField(s: string): (r: Read<(string, Json)>)
    ensures r.Some? ==> |r.value.1| < |s|
    decreases |s|, 1
  {
    match ReadString(SkipSpace(s))
    case None => None
    case Some((k, rest)) =>
      match Expect(':', SkipSpace(rest))
      case None => None
      case Some(t) =>
        match ReadValue(t)
        case Some((v, after)) => Some(((k, v), after))
        case None => None
  }

  /** Fields between commas, up to the closing brace; of a repeated key the last one counts. */
  function ReadFields(s: string, fields: map<string, Json>): (r: Read<Json>)
    ensures r.Some? ==> |r.value.1| < |s|
    decreases |s|, 2
  {
    match ReadField(s)
    case None => None
    case Some(((k, v), rest)) =>
      var t := SkipSpace(rest);
      if t != [] && t[0] == ',' then ReadFields(t[1..], fields[k := v])
      else
        match Expect('}', t)
        case Some(after) => Some((Obj(fields[k := v]), after))
        case None => None
  }
}
