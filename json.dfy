/**
 * JSON values as `serde_json::Value` holds them, the accessors the program
 * uses, and compact serialization (`Value::to_string`, `serde_json::to_string`).
 * Objects keep their members in the order they are held.
 */
module Json {
  import opened Wrappers
  import opened Text

  /** A JSON number: an integer, or a float kept as its shortest decimal rendering. */
  datatype Number = Int(i: int) | Float(text: string)

  datatype Json =
    | Null
    | Bool(b: bool)
    | Num(n: Number)
    | Str(s: string)
    | Arr(items: seq<Json>)
    | Obj(members: seq<(string, Json)>)

  /** `Number::as_i64`: integers inside the `i64` range. */
  function AsI64(n: Number): (r: Option<int>)
    ensures r.Some? ==> n.Int? && r.value == n.i && I64_MIN <= r.value <= I64_MAX
    ensures n.Int? && I64_MIN <= n.i <= I64_MAX ==> r == Some(n.i)
  {
    match n
    case Int(i) => if I64_MIN <= i <= I64_MAX then Some(i) else None
    case Float(_) => None
  }

  /** `Number::to_string`. */
  function NumberText(n: Number): string
  {
    match n
    case Int(i) => IntToString(i)
    case Float(t) => t
  }

  // ---------------------------------------------------------------------------
  // String escaping

  function HexDigit(d: nat): (c: char)
    requires d < 16
  {
    if d < 10 then ('0' as int + d) as char else ('a' as int + d - 10) as char
  }

  /** How serde_json writes one character inside a string literal. */
  function EscapeChar(c: char): (r: string)
    ensures r != []
  {
    if c == '"' then "\\\""
    else if c == '\\' then "\\\\"
    else if c == '\U{0008}' then "\\b"
    else if c == '\t' then "\\t"
    else if c == '\n' then "\\n"
    else if c == '\U{000C}' then "\\f"
    else if c == '\r' then "\\r"
    else if c < ' ' then "\\u00" + [HexDigit(c as int / 16), HexDigit(c as int % 16)]
    else [c]
  }

  function Escape(s: string): string
  {
    if s == [] then [] else EscapeChar(s[0]) + Escape(s[1..])
  }

  /** A string literal: the escaped text between double quotes. */
  function Quote(s: string): string
  {
    "\"" + Escape(s) + "\""
  }

  function HexValue(c: char): (r: Option<nat>)
    ensures r.Some? ==> r.value < 16
  {
    if '0' <= c <= '9' then Some(c as int - '0' as int)
    else if 'a' <= c <= 'f' then Some(c as int - 'a' as int + 10)
    else if 'A' <= c <= 'F' then Some(c as int - 'A' as int + 10)
    else None
  }

  function Prepend(c: char, r: Option<string>): Option<string>
  {
    match r
    case None => None
    case Some(s) => Some([c] + s)
  }

  /** The character named by the `\uXXXX` escape `t[..6]`, when it names a character. */
  function UnicodeEscape(t: string): (r: Option<char>)
    requires |t| >= 6
  {
    match (HexValue(t[2]), HexValue(t[3]), HexValue(t[4]), HexValue(t[5]))
    case (Some(a), Some(b), Some(c), Some(d)) =>
      var v := ((a * 16 + b) * 16 + c) * 16 + d;
      if v < 0xD800 || 0xE000 <= v then Some(v as char) else None
    case _ => None
  }

  /** Decoding the inside of a JSON string literal: the escapes of RFC 8259, section 7. */
  function Unescape(t: string): Option<string>
    decreases |t|
  {
    if t == [] then Some([])
    else if t[0] == '"' || t[0] < ' ' then None
    else if t[0] != '\\' then Prepend(t[0], Unescape(t[1..]))
    else if |t| < 2 then None
    else if t[1] == '"' then Prepend('"', Unescape(t[2..]))
    else if t[1] == '\\' then Prepend('\\', Unescape(t[2..]))
    else if t[1] == '/' then Prepend('/', Unescape(t[2..]))
    else if t[1] == 'b' then Prepend('\U{0008}', Unescape(t[2..]))
    else if t[1] == 't' then Prepend('\t', Unescape(t[2..]))
    else if t[1] == 'n' then Prepend('\n', Unescape(t[2..]))
    else if t[1] == 'f' then Prepend('\U{000C}', Unescape(t[2..]))
    else if t[1] == 'r' then Prepend('\r', Unescape(t[2..]))
    else if t[1] == 'u' && |t| >= 6 then
      match UnicodeEscape(t)
      case None => None
      case Some(c) => Prepend(c, Unescape(t[6..]))
    else None
  }

  /** Decoding reads back one escaped character and continues with the rest. */
  lemma UnescapeEscapeChar(c: char, rest: string)
    ensures Unescape(EscapeChar(c) + rest) == Prepend(c, Unescape(rest))
  {
    var t := EscapeChar(c) + rest;
    if c == '"' || c == '\\' || c == '\U{0008}' || c == '\t' || c == '\n' || c == '\U{000C}' || c == '\r' {
      assert t[2..] == rest;
    } else if c < ' ' {
      var hi, lo := c as int / 16, c as int % 16;
      assert t[..6] == "\\u00" + [HexDigit(hi), HexDigit(lo)];
      assert HexValue(t[4]) == Some(hi) && HexValue(t[5]) == Some(lo);
      assert t[6..] == rest;
    } else {
      assert t[1..] == rest;
    }
  }

  /** Escaping is undone by decoding: every string survives a round trip. */
  lemma {:induction false} UnescapeEscape(s: string)
    ensures Unescape(Escape(s)) == Some(s)
  {
    if s != [] {
      UnescapeEscape(s[1..]);
      UnescapeEscapeChar(s[0], Escape(s[1..]));
      assert [s[0]] + s[1..] == s;
    }
  }

  /** An escaped string holds no raw control character. */
  lemma {:induction false} EscapeHasNoControl(s: string)
    ensures forall i :: 0 <= i < |Escape(s)| ==> ' ' <= Escape(s)[i]
  {
    if s != [] {
      EscapeHasNoControl(s[1..]);
      var e, r := EscapeChar(s[0]), Escape(s[1..]);
      assert Escape(s) == e + r;
      forall i | 0 <= i < |r| ensures (e + r)[|e| + i] == r[i] { }
    }
  }

  // ---------------------------------------------------------------------------
  // Serialization

  /** `Value::to_string`: compact JSON, members in the order held. */
  function Serialize(j: Json): string
    decreases j
  {
    match j
    case Null => "null"
    case Bool(b) => if b then "true" else "false"
    case Num(n) => NumberText(n)
    case Str(s) => Quote(s)
    case Arr(items) =>
      "[" + Join(seq(|items|, i requires 0 <= i < |items| => Serialize(items[i])), ",") + "]"
    case Obj(members) =>
      "{" + Join(seq(|members|, i requires 0 <= i < |members| =>
        Quote(members[i].0) + ":" + Serialize(members[i].1)), ",") + "}"
  }

  /** A serialized string is a quoted literal whose inside decodes to the string. */
  lemma SerializeStringRoundTrip(s: string)
    ensures var t := Serialize(Str(s));
      |t| >= 2 && t[0] == '"' && t[|t| - 1] == '"' && Unescape(t[1..|t| - 1]) == Some(s)
  {
    var t := Serialize(Str(s));
    assert t[1..|t| - 1] == Escape(s);
    UnescapeEscape(s);
  }

  // ---------------------------------------------------------------------------
  // Object members

  /** The number of members named `key`. */
  function Occurrences(members: seq<(string, Json)>, key: string): nat
  {
    if members == [] then 0
    else Occurrences(members[..|members| - 1], key) + (if members[|members| - 1].0 == key then 1 else 0)
  }

  /** The value of the last member named `key`. */
  function Lookup(members: seq<(string, Json)>, key: string): (r: Option<Json>)
    ensures r.None? <==> Occurrences(members, key) == 0
  {
    if members == [] then None
    else if members[|members| - 1].0 == key then Some(members[|members| - 1].1)
    else Lookup(members[..|members| - 1], key)
  }
}
