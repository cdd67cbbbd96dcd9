/** The JSON text of a string or a boolean, as `JSON.stringify` writes it:
    strings are quoted, and the quotation mark, the reverse solidus and every
    control character below U+0020 are escaped as section 7 of RFC 8259
    requires (`\b \t \n \f \r` in their short form, the others as `\u00xx`
    with lower-case hexadecimal digits). A decoder for that grammar shows
    that the encoding loses nothing. */
module Json {
  import opened Wrappers

  /** A scalar JSON value: the legacy text renders only strings and booleans. */
  datatype Scalar = JString(s: string) | JBool(b: bool)

  /** The lower-case hexadecimal digit of `n`. */
  function HexDigit(n: nat): (c: char)
    requires n < 16
    ensures '0' <= c <= '9' || 'a' <= c <= 'f'
  {
    if n < 10 then ('0' as int + n) as char else ('a' as int + n - 10) as char
  }

  /** The value of a hexadecimal digit of either case. */
  function HexValue(c: char): (v: Option<nat>)
    ensures v.Some? ==> v.value < 16
  {
    if '0' <= c <= '9' then Some(c as int - '0' as int)
    else if 'a' <= c <= 'f' then Some(c as int - 'a' as int + 10)
    else if 'A' <= c <= 'F' then Some(c as int - 'A' as int + 10)
    else None
  }

  /** The value of four hexadecimal digits. */
  function HexQuad(q: string): (v: Option<nat>)
    requires |q| == 4
    ensures v.Some? ==> v.value < 0x1_0000
  {
    match (HexValue(q[0]), HexValue(q[1]), HexValue(q[2]), HexValue(q[3]))
    case (Some(a), Some(b), Some(c), Some(d)) => Some(a * 0x1000 + b * 0x100 + c * 0x10 + d)
    case _ => None
  }

  /** The escape sequence of one character inside a JSON string. */
  function EscapeChar(c: char): (e: string)
    ensures |e| > 0
    ensures forall i :: 0 <= i < |e| ==> e[i] >= ' '
    ensures c >= ' ' && c != '"' && c != '\\' <==> e == [c]
  {
    if c == '"' then "\\\""
    else if c == '\\' then "\\\\"
    else if c == '\U{8}' then "\\b"
    else if c == '\t' then "\\t"
    else if c == '\n' then "\\n"
    else if c == '\U{C}' then "\\f"
    else if c == '\r' then "\\r"
    else if c < ' ' then "\\u00" + [HexDigit(c as int / 16), HexDigit(c as int % 16)]
    else [c]
  }

  /** The body of a JSON string: every character escaped. */
  function EscapeString(s: string): (e: string)
    ensures |e| >= |s|
    ensures forall i :: 0 <= i < |e| ==> e[i] >= ' '
    decreases |s|
  {
    if s == [] then [] else EscapeChar(s[0]) + EscapeString(s[1..])
  }

  /** `JSON.stringify` of a string. */
  function Quote(s: string): (t: string)
    ensures |t| >= 2 && t[0] == '"' && t[|t| - 1] == '"'
    ensures forall i :: 0 <= i < |t| ==> t[i] >= ' '
  {
    "\"" + EscapeString(s) + "\""
  }

  /** `JSON.stringify` of a string or a boolean. */
  function Stringify(v: Scalar): (t: string)
    ensures |t| > 0
    ensures forall i :: 0 <= i < |t| ==> t[i] >= ' '
  {
    match v
    case JString(s) => Quote(s)
    case JBool(b) => if b then "true" else "false"
  }

  /** The character a one-letter escape stands for. */
  function ShortEscape(c: char): Option<char> {
    if c == '"' then Some('"')
    else if c == '\\' then Some('\\')
    else if c == '/' then Some('/')
    else if c == 'b' then Some('\U{8}')
    else if c == 'f' then Some('\U{C}')
    else if c == 'n' then Some('\n')
    else if c == 'r' then Some('\r')
    else if c == 't' then Some('\t')
    else None
  }

  function Prepend(c: char, rest: Option<string>): Option<string> {
    match rest
    case Some(r) => Some([c] + r)
    case None => None
  }

  /** Decodes the characters of a JSON string after its opening quote up to
      and including its closing quote, which must end `t`. Escapes of UTF-16
      surrogate halves are rejected. */
  function UnescapeBody(t: string): Option<string>
    decreases |t|
  {
    if |t| == 0 then None
    else if t[0] == '"' then (if |t| == 1 then Some([]) else None)
    else if t[0] == '\\' then
      if |t| < 2 then None
      else if t[1] == 'u' then
        if |t| < 6 then None
        else match HexQuad(t[2..6])
          case None => None
          case Some(v) => if 0xD800 <= v < 0xE000 then None else Prepend(v as char, UnescapeBody(t[6..]))
      else match ShortEscape(t[1])
        case None => None
        case Some(c) => Prepend(c, UnescapeBody(t[2..]))
    else if t[0] < ' ' then None
    else Prepend(t[0], UnescapeBody(t[1..]))
  }

  /** Parses a JSON string literal. */
  function Unquote(t: string): Option<string> {
    if |t| > 0 && t[0] == '"' then UnescapeBody(t[1..]) else None
  }

  /** Parses a JSON string or boolean literal. */
  function Parse(t: string): Option<Scalar> {
    if t == "true" then Some(JBool(true))
    else if t == "false" then Some(JBool(false))
    else match Unquote(t)
      case Some(s) => Some(JString(s))
      case None => None
  }

  /** A digit written by `HexDigit` reads back as its value. */
  lemma HexDigitValue(n: nat)
    requires n < 16
    ensures HexValue(HexDigit(n)) == Some(n)
  {
  }

  /** The `\u00xx` escape of a character below U+0020 reads back as that character. */
  lemma HexEscapeValue(c: char)
    requires c < ' '
    ensures var q := "00" + [HexDigit(c as int / 16), HexDigit(c as int % 16)];
            |q| == 4 && HexQuad(q) == Some(c as int)
  {
    HexDigitValue(c as int / 16);
    HexDigitValue(c as int % 16);
  }

  /** Decoding consumes the escape of one character and yields that character. */
  lemma UnescapeChar(c: char, rest: string)
    ensures UnescapeBody(EscapeChar(c) + rest) == Prepend(c, UnescapeBody(rest))
  {
    var e := EscapeChar(c);
    var t := e + rest;
    if c < ' ' && c != '\U{8}' && c != '\t' && c != '\n' && c != '\U{C}' && c != '\r' {
      HexEscapeValue(c);
      assert t[2..6] == "00" + [HexDigit(c as int / 16), HexDigit(c as int % 16)];
      assert t[6..] == rest;
      assert (c as int) as char == c;
    } else if |e| == 2 {
      assert t[2..] == rest;
    } else {
      assert t[1..] == rest;
    }
  }

  /** Decoding the escaped body and the closing quote gives back the string. */
  lemma {:induction false} UnescapeEscape(s: string)
    ensures UnescapeBody(EscapeString(s) + "\"") == Some(s)
    decreases |s|
  {
    if s == [] {
    } else {
      UnescapeEscape(s[1..]);
      assert EscapeString(s) + "\"" == EscapeChar(s[0]) + (EscapeString(s[1..]) + "\"");
      UnescapeChar(s[0], EscapeString(s[1..]) + "\"");
      assert [s[0]] + s[1..] == s;
    }
  }

  /** Every JSON text written here parses back to the value it encodes. */
  lemma ParseStringify(v: Scalar)
    ensures Parse(Stringify(v)) == Some(v)
  {
    match v
    case JBool(b) =>
    case JString(s) =>
      var t := Stringify(v);
      assert t[1..] == EscapeString(s) + "\"";
      UnescapeEscape(s);
      assert t != "true" && t != "false" by {
        assert t[0] == '"';
      }
  }

  /** Escaping works character by character, so it distributes over
      concatenation. */
  lemma {:induction false} EscapeStringAppend(a: string, b: string)
    ensures EscapeString(a + b) == EscapeString(a) + EscapeString(b)
    decreases |a|
  {
    if a == [] {
      assert a + b == b;
    } else {
      assert (a + b)[1..] == a[1..] + b;
      EscapeStringAppend(a[1..], b);
    }
  }

  /** No quotation mark, reverse solidus or character below U+0020. */
  predicate IsPlain(s: string) {
    forall i :: 0 <= i < |s| ==> s[i] >= ' ' && s[i] != '"' && s[i] != '\\'
  }

  /** A plain string is written unchanged between the quotes. */
  lemma {:induction false} EscapeStringPlain(s: string)
    requires IsPlain(s)
    ensures EscapeString(s) == s
    decreases |s|
  {
    if s != [] {
      EscapeStringPlain(s[1..]);
      assert [s[0]] + s[1..] == s;
    }
  }
}
