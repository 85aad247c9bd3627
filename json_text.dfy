/**
 * The JSON values that travel in queue messages, Python's truthiness on them, and
 * `json.dumps` as the worker applies it to `lo_options` (pdf-worker/worker.py:37-38),
 * with a decoder for the string escapes it produces.
 */
module JsonText {
  import opened Wrappers

  /** The JSON scalars a queue-message field can hold. */
  datatype JsonValue = JNull | JBool(b: bool) | JInt(i: int) | JStr(s: string)

  /** A decoded message body; anything `json.loads` rejects, or that is not an object, is `Malformed`. */
  datatype Document = Malformed | Obj(fields: map<string, JsonValue>)

  /** `dict.get(key)`: an absent key reads as `None`. */
  function Field(fields: map<string, JsonValue>, key: string): (v: JsonValue)
    ensures key !in fields ==> v == JNull
  {
    if key in fields then fields[key] else JNull
  }

  /** Python's truth value of the decoded JSON value: only None, False, 0 and "" are falsy. */
  function Truthy(v: JsonValue): (t: bool)
    ensures !t <==> v == JNull || v == JBool(false) || v == JInt(0) || v == JStr("")
  {
    match v
    case JNull => false
    case JBool(b) => b
    case JInt(i) => i != 0
    case JStr(s) => s != ""
  }

  function DigitChar(d: nat): (c: char)
    requires d < 10
    ensures '0' <= c <= '9'
  {
    ('0' as int + d) as char
  }

  /** The number a string of decimal digits denotes, most significant first. */
  function DigitsValue(r: string): nat
    requires forall k :: 0 <= k < |r| ==> '0' <= r[k] <= '9'
  {
    if r == [] then 0 else DigitsValue(r[..|r| - 1]) * 10 + (r[|r| - 1] as int - '0' as int)
  }

  /** Decimal digits of a natural number, most significant first. */
  function NatDigits(n: nat): (r: string)
    ensures |r| > 0
    ensures forall k :: 0 <= k < |r| ==> '0' <= r[k] <= '9'
    ensures DigitsValue(r) == n
    decreases n
  {
    if n < 10 then [DigitChar(n)]
    else
      var r := NatDigits(n / 10) + [DigitChar(n % 10)];
      assert r[..|r| - 1] == NatDigits(n / 10);
      r
  }

  /** `str(n)` and `json.dumps(n)` of an integer. */
  function Decimal(n: int): (r: string)
    ensures |r| > 0 && (n < 0 <==> r[0] == '-')
    ensures n >= 0 ==> (forall k :: 0 <= k < |r| ==> '0' <= r[k] <= '9') && DigitsValue(r) == n
    ensures n < 0 ==> (forall k :: 1 <= k < |r| ==> '0' <= r[k] <= '9') && DigitsValue(r[1..]) == -n
  {
    if n < 0 then "-" + NatDigits(-n) else NatDigits(n)
  }

  function HexDigit(d: nat): (c: char)
    requires d < 16
  {
    if d < 10 then ('0' as int + d) as char else ('a' as int + d - 10) as char
  }

  /** The value of a hexadecimal digit of either case. */
  function HexValue(c: char): (v: Option<nat>)
    ensures v.Some? ==> v.value < 16
  {
    if '0' <= c <= '9' then Some(c as int - '0' as int)
    else if 'a' <= c <= 'f' then Some(c as int - 'a' as int + 10)
    else if 'A' <= c <= 'F' then Some(c as int - 'A' as int + 10)
    else None
  }

  /** Four lower-case hex digits, as in Python's `'\\u{0:04x}'`. */
  function Hex4(n: nat): (r: string)
    requires n < 0x10000
    ensures |r| == 4
  {
    var q1 := n / 0x10;
    var q2 := q1 / 0x10;
    var q3 := q2 / 0x10;
    [HexDigit(q3), HexDigit(q2 % 0x10), HexDigit(q1 % 0x10), HexDigit(n % 0x10)]
  }

  function ParseHex4(t: string): (v: Option<nat>)
    requires |t| == 4
    ensures v.Some? ==> v.value < 0x10000
  {
    match (HexValue(t[0]), HexValue(t[1]), HexValue(t[2]), HexValue(t[3]))
    case (Some(a), Some(b), Some(c), Some(d)) => Some(a * 0x1000 + b * 0x100 + c * 0x10 + d)
    case _ => None
  }

  lemma HexDigitValue(d: nat)
    requires d < 16
    ensures HexValue(HexDigit(d)) == Some(d)
  {
  }

  /** Reading back four hex digits gives the number written. */
  lemma ParseHex4OfHex4(n: nat)
    requires n < 0x10000
    ensures ParseHex4(Hex4(n)) == Some(n)
  {
    var q1 := n / 0x10;
    var q2 := q1 / 0x10;
    var q3 := q2 / 0x10;
    assert n == q1 * 0x10 + n % 0x10;
    assert q1 == q2 * 0x10 + q1 % 0x10;
    assert q2 == q3 * 0x10 + q2 % 0x10;
    var h := Hex4(n);
    assert h == [HexDigit(q3), HexDigit(q2 % 0x10), HexDigit(q1 % 0x10), HexDigit(n % 0x10)];
    HexDigitValue(q3);
    HexDigitValue(q2 % 0x10);
    HexDigitValue(q1 % 0x10);
    HexDigitValue(n % 0x10);
    assert n == q3 * 0x1000 + q2 % 0x10 * 0x100 + q1 % 0x10 * 0x10 + n % 0x10;
  }

  /** True for the characters `json.dumps` writes as they are: ' ' to '~' except '"' and '\\'. */
  predicate PlainChar(c: char)
  {
    ' ' <= c <= '~' && c != '"' && c != '\\'
  }

  /** How `json.dumps` (with its default `ensure_ascii`) writes one character inside a string. */
  function EscapeChar(c: char): (r: string)
    ensures |r| > 0
  {
    if c == '"' then "\\\""
    else if c == '\\' then "\\\\"
    else if c == '\n' then "\\n"
    else if c == '\r' then "\\r"
    else if c == '\t' then "\\t"
    else if c as int == 0x08 then "\\b"
    else if c as int == 0x0C then "\\f"
    else if PlainChar(c) then [c]
    else if c as int < 0x10000 then "\\u" + Hex4(c as int)
    else
      var v := c as int - 0x10000;
      "\\u" + Hex4(0xD800 + v / 0x400) + "\\u" + Hex4(0xDC00 + v % 0x400)
  }

  function Escape(s: string): string
    decreases |s|
  {
    if s == [] then [] else EscapeChar(s[0]) + Escape(s[1..])
  }

  /** A JSON string literal of `s`. */
  function Quote(s: string): (q: string)
  {
    "\"" + Escape(s) + "\""
  }

  /** `json.dumps(v)`. */
  function Dumps(v: JsonValue): (r: string)
    ensures v.JStr? ==> |r| >= |v.s| + 2 && r[0] == '"' && r[|r| - 1] == '"'
    ensures v.JStr? ==> Unescape(r[1..|r| - 1]) == Some(v.s)
  {
    match v
    case JNull => "null"
    case JBool(b) => if b then "true" else "false"
    case JInt(i) => Decimal(i)
    case JStr(s) =>
      UnescapeEscape(s);
      EscapeLength(s);
      var q := Quote(s);
      assert q[1..|q| - 1] == Escape(s);
      q
  }

  /** `str(v)`: how a form field value reaches the wire when it is not already a string. */
  function PyStr(v: JsonValue): (r: string)
    ensures v.JStr? ==> r == v.s
    ensures v.JBool? ==> r == (if v.b then "True" else "False")
    ensures v.JInt? ==> r == Decimal(v.i) && (v.i < 0 <==> r[0] == '-')
    ensures Truthy(v) ==> r != ""
  {
    match v
    case JNull => "None"
    case JBool(b) => if b then "True" else "False"
    case JInt(i) => Decimal(i)
    case JStr(s) => s
  }

  function Prepend(c: char, rest: Option<string>): (r: Option<string>)
  {
    match rest
    case None => None
    case Some(t) => Some([c] + t)
  }

  /**
   * Decodes the inside of a JSON string literal: escapes are undone as `json.loads` undoes
   * them; `None` for a bare '"', a bad escape or a lone surrogate. Unlike `json.loads`,
   * raw control characters below U+0020 are accepted.
   */
  function Unescape(t: string): (r: Option<string>)
    decreases |t|
  {
    if t == [] then Some([])
    else if t[0] == '"' then None
    else if t[0] != '\\' then Prepend(t[0], Unescape(t[1..]))
    else if |t| < 2 then None
    else if t[1] == '"' then Prepend('"', Unescape(t[2..]))
    else if t[1] == '\\' then Prepend('\\', Unescape(t[2..]))
    else if t[1] == '/' then Prepend('/', Unescape(t[2..]))
    else if t[1] == 'n' then Prepend('\n', Unescape(t[2..]))
    else if t[1] == 'r' then Prepend('\r', Unescape(t[2..]))
    else if t[1] == 't' then Prepend('\t', Unescape(t[2..]))
    else if t[1] == 'b' then Prepend(0x08 as char, Unescape(t[2..]))
    else if t[1] == 'f' then Prepend(0x0C as char, Unescape(t[2..]))
    else if t[1] != 'u' || |t| < 6 then None
    else
      match ParseHex4(t[2..6])
      case None => None
      case Some(v) =>
        if 0xD800 <= v < 0xDC00 then
          if |t| >= 12 && t[6] == '\\' && t[7] == 'u' then
            match ParseHex4(t[8..12])
            case Some(w) =>
              if 0xDC00 <= w < 0xE000 then
                Prepend(((v - 0xD800) * 0x400 + (w - 0xDC00) + 0x10000) as char, Unescape(t[12..]))
              else None
            case None => None
          else None
        else if 0xDC00 <= v < 0xE000 then None
        else Prepend(v as char, Unescape(t[6..]))
  }

  /** Decoding the escape of one character, followed by anything, yields that character first. */
  lemma UnescapeChar(c: char, rest: string)
    ensures Unescape(EscapeChar(c) + rest) == Prepend(c, Unescape(rest))
  {
    if c == '"' || c == '\\' || c == '\n' || c == '\r' || c == '\t' || c as int == 0x08 || c as int == 0x0C {
      UnescapeNamed(c, rest);
    } else if PlainChar(c) {
      var t := EscapeChar(c) + rest;
      assert t[1..] == rest;
    } else if c as int < 0x10000 {
      UnescapeBmp(c, rest);
    } else {
      UnescapeAstral(c, rest);
    }
  }

  lemma UnescapeNamed(c: char, rest: string)
    requires c == '"' || c == '\\' || c == '\n' || c == '\r' || c == '\t' || c as int == 0x08 || c as int == 0x0C
    ensures Unescape(EscapeChar(c) + rest) == Prepend(c, Unescape(rest))
  {
    var t := EscapeChar(c) + rest;
    assert t[0] == '\\' && |t| >= 2;
    assert t[2..] == rest;
  }

  lemma UnescapeBmp(c: char, rest: string)
    requires !PlainChar(c) && c != '"' && c != '\\' && c != '\n' && c != '\r' && c != '\t'
    requires c as int != 0x08 && c as int != 0x0C && c as int < 0x10000
    ensures Unescape(EscapeChar(c) + rest) == Prepend(c, Unescape(rest))
  {
    var t := EscapeChar(c) + rest;
    assert t == "\\u" + Hex4(c as int) + rest;
    assert t[0] == '\\' && t[1] == 'u';
    assert t[2..6] == Hex4(c as int);
    ParseHex4OfHex4(c as int);
    assert t[6..] == rest;
  }

  lemma UnescapeAstral(c: char, rest: string)
    requires c as int >= 0x10000
    ensures Unescape(EscapeChar(c) + rest) == Prepend(c, Unescape(rest))
  {
    var v := c as int - 0x10000;
    var hi, lo := 0xD800 + v / 0x400, 0xDC00 + v % 0x400;
    var t := EscapeChar(c) + rest;
    assert t == "\\u" + Hex4(hi) + "\\u" + Hex4(lo) + rest;
    assert t[0] == '\\' && t[1] == 'u';
    assert t[2..6] == Hex4(hi);
    assert t[6] == '\\' && t[7] == 'u';
    assert t[8..12] == Hex4(lo);
    ParseHex4OfHex4(hi);
    ParseHex4OfHex4(lo);
    assert (hi - 0xD800) * 0x400 + (lo - 0xDC00) + 0x10000 == c as int;
    assert t[12..] == rest;
  }

  /** `Unescape` inverts `Escape`: the worker's quoting loses nothing. */
  lemma {:induction false} UnescapeEscape(s: string)
    ensures Unescape(Escape(s)) == Some(s)
    decreases |s|
  {
    if s != [] {
      UnescapeChar(s[0], Escape(s[1..]));
      UnescapeEscape(s[1..]);
      assert [s[0]] + s[1..] == s;
    }
  }

  lemma {:induction false} EscapeLength(s: string)
    ensures |Escape(s)| >= |s|
    decreases |s|
  {
    if s != [] {
      EscapeLength(s[1..]);
    }
  }
}
