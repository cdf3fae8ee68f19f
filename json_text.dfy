/**
 * The JSON text of an error body. `json!({"error": m}).to_string()` is the
 * compact serde_json form `{"error":"<m escaped>"}`: a JSON string escapes
 * `"` and `\`, writes the five control characters that have a short form as
 * `\b \t \n \f \r`, and every other control character below 0x20 as `\u00`
 * followed by two lower-case hex digits; everything else is copied.
 * `ParseString` and `ErrorField` read such text back, strictly: they are the
 * reference against which the writer is proved.
 */
module JsonText {
  import opened Results

  const Hex: string := "0123456789abcdef"

  /** The JSON form of one character inside a string literal. */
  function EscapeChar(c: char): (t: string)
    ensures 1 <= |t|
  {
    var n := c as int;
    if c == '"' then ['\\', '"']
    else if c == '\\' then ['\\', '\\']
    else if n == 0x08 then ['\\', 'b']
    else if n == 0x09 then ['\\', 't']
    else if n == 0x0A then ['\\', 'n']
    else if n == 0x0C then ['\\', 'f']
    else if n == 0x0D then ['\\', 'r']
    else if n < 0x20 then ['\\', 'u', '0', '0', Hex[n / 16], Hex[n % 16]]
    else [c]
  }

  /** The body of a JSON string literal holding `s` (without the quotes). */
  function Escape(s: string): (t: string)
    ensures |s| <= |t|
  {
    if s == [] then [] else EscapeChar(s[0]) + Escape(s[1..])
  }

  /** The value of a hex digit, if `c` is one. */
  function HexValue(c: char): Option<nat> {
    if '0' <= c <= '9' then Some(c as int - '0' as int)
    else if 'a' <= c <= 'f' then Some(c as int - 'a' as int + 10)
    else if 'A' <= c <= 'F' then Some(c as int - 'A' as int + 10)
    else None
  }

  /** The value of four hex digits, if `t` is made of them. */
  function HexQuad(t: string): Option<nat>
    requires |t| == 4
  {
    match (HexValue(t[0]), HexValue(t[1]), HexValue(t[2]), HexValue(t[3]))
    case (Some(a), Some(b), Some(c), Some(d)) => Some(((a * 16 + b) * 16 + c) * 16 + d)
    case _ => None
  }

  /**
   * The character an escape sequence stands for and how many characters of
   * `t` it takes, where `t` is the text after the backslash. A `\u` escape of
   * a surrogate half is not read (serde_json never writes one for a string).
   */
  function Unescape(t: string): (r: Option<(char, nat)>)
    ensures r.Some? ==> 1 <= r.value.1 <= |t|
  {
    if |t| == 0 then None
    else if t[0] == '"' || t[0] == '\\' || t[0] == '/' then Some((t[0], 1))
    else if t[0] == 'b' then Some((8 as char, 1))
    else if t[0] == 't' then Some((9 as char, 1))
    else if t[0] == 'n' then Some((10 as char, 1))
    else if t[0] == 'f' then Some((12 as char, 1))
    else if t[0] == 'r' then Some((13 as char, 1))
    else if t[0] == 'u' && 5 <= |t| then
      match HexQuad(t[1..5])
      case Some(v) => if v < 0xD800 || 0xE000 <= v then Some((v as char, 5)) else None
      case None => None
    else None
  }

  /**
   * Reads the rest of a JSON string literal whose opening quote has been
   * consumed: its value, and the text after the closing quote.
   */
  function ParseString(t: string): Option<(string, string)>
    decreases |t|
  {
    if |t| == 0 then None
    else if t[0] == '"' then Some(([], t[1..]))
    else if (t[0] as int) < 0x20 then None
    else if t[0] == '\\' then
      match Unescape(t[1..])
      case None => None
      case Some((c, n)) =>
        match ParseString(t[1 + n..])
        case None => None
        case Some((s, rest)) => Some(([c] + s, rest))
    else
      match ParseString(t[1..])
      case None => None
      case Some((s, rest)) => Some(([t[0]] + s, rest))
  }

  const ErrorPrefix: string := "{\"error\":\""
  const ErrorSuffix: string := "\"}"

  /** `json!({"error": m}).to_string()`: the object whose single member `error` is the string `m`. */
  function Envelope(m: string): (t: string)
    ensures |t| >= |m| + |ErrorPrefix| + |ErrorSuffix|
    ensures t[..|ErrorPrefix|] == ErrorPrefix && t[|t| - |ErrorSuffix|..] == ErrorSuffix
  {
    ErrorPrefix + Escape(m) + ErrorSuffix
  }

  /** The `error` string of a text that is exactly a one-member object `{"error":"…"}`. */
  function ErrorField(t: string): Option<string> {
    if |ErrorPrefix| <= |t| && t[..|ErrorPrefix|] == ErrorPrefix then
      match ParseString(t[|ErrorPrefix|..])
      case Some((m, rest)) => if rest == "}" then Some(m) else None
      case None => None
    else None
  }

  /** `c` put in front of the value of a string literal that was read. */
  function Prepend(c: char, read: Option<(string, string)>): Option<(string, string)> {
    match read
    case None => None
    case Some((s, rest)) => Some(([c] + s, rest))
  }

  /** A control character written as `\u00XY`. */
  predicate IsHexEscaped(c: char) {
    var n := c as int;
    n < 0x20 && n != 0x08 && n != 0x09 && n != 0x0A && n != 0x0C && n != 0x0D
  }

  /** Reading `\u00XY` back gives the control character it was written for. */
  lemma ParseHexEscape(c: char, more: string)
    requires IsHexEscaped(c)
    ensures ParseString(EscapeChar(c) + more) == Prepend(c, ParseString(more))
  {
    var n := c as int;
    var t := EscapeChar(c) + more;
    var quad := t[2..6];
    assert quad == ['0', '0', Hex[n / 16], Hex[n % 16]];
    assert HexQuad(quad) == Some(n);
    assert t[1..][1..5] == quad;
    assert Unescape(t[1..]) == Some((c, 5));
    assert t[6..] == more;
  }

  /** Reading a two-character escape or a plain character back gives it. */
  lemma ParseShortEscape(c: char, more: string)
    requires !IsHexEscaped(c)
    ensures ParseString(EscapeChar(c) + more) == Prepend(c, ParseString(more))
  {
    var t := EscapeChar(c) + more;
    if |EscapeChar(c)| == 1 {
      assert t[0] == c && t[1..] == more;
    } else {
      assert Unescape(t[1..]) == Some((c, 1));
      assert t[2..] == more;
    }
  }

  /** Reading the escape of `c` back gives `c`, and reading continues right after it. */
  lemma ParseEscapedChar(c: char, more: string)
    ensures ParseString(EscapeChar(c) + more) == Prepend(c, ParseString(more))
  {
    if IsHexEscaped(c) {
      ParseHexEscape(c, more);
    } else {
      ParseShortEscape(c, more);
    }
  }

  /** A string literal written by `Escape` and closed by a quote is read back exactly. */
  lemma {:induction false} ParseEscaped(s: string, tail: string)
    ensures ParseString(Escape(s) + ['"'] + tail) == Some((s, tail))
  {
    if s == [] {
      assert Escape(s) + ['"'] + tail == ['"'] + tail;
    } else {
      var more := Escape(s[1..]) + ['"'] + tail;
      assert Escape(s) + ['"'] + tail == EscapeChar(s[0]) + more;
      ParseEscaped(s[1..], tail);
      ParseEscapedChar(s[0], more);
      assert [s[0]] + s[1..] == s;
    }
  }

  /** The `error` member of the envelope of `m` is `m`. */
  lemma EnvelopeRoundTrip(m: string)
    ensures ErrorField(Envelope(m)) == Some(m)
  {
    var t := Envelope(m);
    assert t[..|ErrorPrefix|] == ErrorPrefix;
    assert t[|ErrorPrefix|..] == Escape(m) + ['"'] + "}";
    ParseEscaped(m, "}");
  }

  /** A character that a JSON string literal holds as it is. */
  predicate Plain(c: char) {
    0x20 <= (c as int) && c != '"' && c != '\\'
  }

  /** A string with no character that JSON escapes is written as it is. */
  lemma {:induction false} EscapePlain(s: string)
    requires forall i :: 0 <= i < |s| ==> Plain(s[i])
    ensures Escape(s) == s
  {
    if s != [] {
      EscapePlain(s[1..]);
      assert [s[0]] + s[1..] == s;
    }
  }

  /** The envelope of a message with no character to escape is the message between prefix and suffix. */
  lemma EnvelopePlain(m: string)
    requires forall i :: 0 <= i < |m| ==> Plain(m[i])
    ensures Envelope(m) == ErrorPrefix + m + ErrorSuffix
  {
    EscapePlain(m);
  }
}
