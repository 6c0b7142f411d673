/**
 * The responses the host writes back, and their JSON text as Python's
 * `json.dumps` produces it with default settings: `", "` and `": "` as
 * separators, keys in insertion order, and `ensure_ascii` escaping, so the
 * text is pure ASCII. `Parse` is an independent reader of that text; the
 * round trip `Parse(Encode(r)) == Some(r)` is the partner of the encoder.
 */
module ResponseJson {
  import opened Results
  import opened Strings

  /** The two objects `main` sends: `{"success": b, "message": m}` and `{"success": false, "error": e}`. */
  datatype Response =
    | Reply(success: bool, message: string)
    | Failure(error: string)

  predicate IsAscii(s: string) {
    forall c :: c in s ==> c as int < 0x80
  }

  lemma AsciiConcat(a: string, b: string)
    requires IsAscii(a) && IsAscii(b)
    ensures IsAscii(a + b)
  {
  }

  // ---------------------------------------------------------------------------
  // Encoding

  /** A lower-case hexadecimal digit, as `'{0:04x}'.format` writes it. */
  function HexDigit(d: nat): (c: char)
    requires d < 16
    ensures '0' <= c <= '9' || 'a' <= c <= 'f'
  {
    if d < 10 then ('0' as int + d) as char else ('a' as int + d - 10) as char
  }

  /** Four lower-case hexadecimal digits, most significant first. */
  function Hex4(n: nat): (h: string)
    requires n < 0x1_0000
    ensures |h| == 4 && IsAscii(h)
  {
    [HexDigit(n / 0x1000), HexDigit(n / 0x100 % 0x10), HexDigit(n / 0x10 % 0x10), HexDigit(n % 0x10)]
  }

  /** Characters written as themselves: printable ASCII other than the quote and the backslash. */
  predicate IsPlain(c: char) {
    ' ' <= c <= '~' && c != '"' && c != '\\'
  }

  /** The escape `json.dumps` writes for one character. */
  function EscapeChar(c: char): (e: string)
    ensures IsAscii(e)
    ensures 0 < |e| <= 12 && e[0] != '"'
    ensures IsPlain(c) <==> e == [c]
  {
    if c == '"' then "\\\""
    else if c == '\\' then "\\\\"
    else if c == '\n' then "\\n"
    else if c == '\r' then "\\r"
    else if c == '\t' then "\\t"
    else if c as int == 0x08 then "\\b"
    else if c as int == 0x0C then "\\f"
    else if IsPlain(c) then [c]
    else if c as int < 0x1_0000 then "\\u" + Hex4(c as int)
    else "\\u" + Hex4(HighSurrogate(c)) + "\\u" + Hex4(LowSurrogate(c))
  }

  /** The two halves of the UTF-16 surrogate pair for a character outside the Basic Multilingual Plane. */
  function HighSurrogate(c: char): (hi: nat)
    requires c as int >= 0x1_0000
    ensures 0xD800 <= hi < 0xDC00
  {
    0xD800 + (c as int - 0x1_0000) / 0x400
  }

  function LowSurrogate(c: char): (lo: nat)
    requires c as int >= 0x1_0000
    ensures 0xDC00 <= lo < 0xE000
    ensures 0x1_0000 + (HighSurrogate(c) - 0xD800) * 0x400 + (lo - 0xDC00) == c as int
  {
    0xDC00 + (c as int - 0x1_0000) % 0x400
  }

  /** The escaped body of a JSON string literal. */
  function Escape(s: string): (e: string)
    ensures IsAscii(e)
    ensures |s| <= |e| <= 12 * |s|
  {
    if s == [] then [] else AsciiConcat(EscapeChar(s[0]), Escape(s[1..])); EscapeChar(s[0]) + Escape(s[1..])
  }

  /** A JSON string literal. */
  function Quote(s: string): (q: string)
    ensures IsAscii(q)
    ensures |q| <= 2 + 12 * |s|
  {
    AsciiConcat("\"", Escape(s));
    AsciiConcat("\"" + Escape(s), "\"");
    "\"" + Escape(s) + "\""
  }

  const SuccessKey: string := "{\"success\": "
  const MessageKey: string := ", \"message\": "
  const ErrorKey: string := ", \"error\": "

  function BoolText(b: bool): (t: string) {
    if b then "true" else "false"
  }

  /** `json.dumps(response)`. */
  function Encode(r: Response): (t: string)
    ensures IsAscii(t)
    ensures |t| <= 40 + 12 * |TextOf(r)|
  {
    Literals();
    match r
    case Reply(b, m) => Join5(SuccessKey, BoolText(b), MessageKey, Quote(m), "}")
    case Failure(e) => Join5(SuccessKey, BoolText(false), ErrorKey, Quote(e), "}")
  }

  lemma Literals()
    ensures IsAscii(SuccessKey) && IsAscii(MessageKey) && IsAscii(ErrorKey) && IsAscii("}")
    ensures IsAscii(BoolText(true)) && IsAscii(BoolText(false))
    ensures |SuccessKey| == 12 && |MessageKey| == 13 && |ErrorKey| == 11 && |BoolText(false)| == 5
  {
  }

  /** The one string member of a response. */
  function TextOf(r: Response): (s: string) {
    match r
    case Reply(_, m) => m
    case Failure(e) => e
  }

  function Join5(a: string, b: string, c: string, d: string, e: string): (t: string)
    requires IsAscii(a) && IsAscii(b) && IsAscii(c) && IsAscii(d) && IsAscii(e)
    ensures IsAscii(t) && t == a + b + c + d + e
    ensures |t| == |a| + |b| + |c| + |d| + |e|
  {
    AsciiConcat(a, b);
    AsciiConcat(a + b, c);
    AsciiConcat(a + b + c, d);
    AsciiConcat(a + b + c + d, e);
    a + b + c + d + e
  }

  // ---------------------------------------------------------------------------
  // Parsing

  function HexValue(c: char): (d: Option<nat>) {
    if '0' <= c <= '9' then Some(c as int - '0' as int)
    else if 'a' <= c <= 'f' then Some(c as int - 'a' as int + 10)
    else if 'A' <= c <= 'F' then Some(c as int - 'A' as int + 10)
    else None
  }

  /** Four hexadecimal digits at the start of `s`. */
  function ParseHex4(s: string): (r: Option<nat>)
    ensures r.Some? ==> r.value < 0x1_0000
  {
    if |s| < 4 then None
    else
      match (HexValue(s[0]), HexValue(s[1]), HexValue(s[2]), HexValue(s[3]))
      case (Some(a), Some(b), Some(c), Some(d)) =>
        if a < 16 && b < 16 && c < 16 && d < 16 then Some(a * 0x1000 + b * 0x100 + c * 0x10 + d) else None
      case _ => None
  }

  /** The character denoted by the escape that follows a backslash, and what is left. */
  function ParseEscape(s: string): (r: Option<(char, string)>)
    ensures r.Some? ==> |r.value.1| < |s|
  {
    if |s| == 0 then None
    else if s[0] == '"' then Some(('"', s[1..]))
    else if s[0] == '\\' then Some(('\\', s[1..]))
    else if s[0] == '/' then Some(('/', s[1..]))
    else if s[0] == 'b' then Some((0x08 as char, s[1..]))
    else if s[0] == 'f' then Some((0x0C as char, s[1..]))
    else if s[0] == 'n' then Some(('\n', s[1..]))
    else if s[0] == 'r' then Some(('\r', s[1..]))
    else if s[0] == 't' then Some(('\t', s[1..]))
    else if s[0] == 'u' then ParseUnicodeEscape(s[1..])
    else None
  }

  /** The four-digit code after `\\u`, completed by a second `\\uXXXX` when it opens a surrogate pair. */
  function ParseUnicodeEscape(s: string): (r: Option<(char, string)>)
    ensures r.Some? ==> |r.value.1| < |s|
  {
    match ParseHex4(s)
    case None => None
    case Some(hi) =>
      if 0xDC00 <= hi < 0xE000 then None
      else if hi < 0xD800 || 0xE000 <= hi then Some((hi as char, s[4..]))
      else if |s| < 6 || s[4..6] != "\\u" then None
      else
        match ParseHex4(s[6..])
        case None => None
        case Some(lo) =>
          if 0xDC00 <= lo < 0xE000
          then Some(((0x1_0000 + (hi - 0xD800) * 0x400 + (lo - 0xDC00)) as char, s[10..]))
          else None
  }

  /** One character of a string literal's body, and what is left. */
  function ParseUnit(s: string): (r: Option<(char, string)>)
    ensures r.Some? ==> |r.value.1| < |s|
  {
    if |s| == 0 || s[0] == '"' || s[0] as int < 0x20 then None
    else if s[0] == '\\' then ParseEscape(s[1..])
    else Some((s[0], s[1..]))
  }

  /** The body of a string literal up to its closing quote, and what follows the quote. */
  function ParseChars(s: string): (r: Option<(string, string)>)
    decreases |s|
  {
    if |s| == 0 then None
    else if s[0] == '"' then Some(([], s[1..]))
    else
      match ParseUnit(s)
      case None => None
      case Some((c, rest)) =>
        match ParseChars(rest)
        case None => None
        case Some((body, after)) => Some(([c] + body, after))
  }

  function ParseString(s: string): (r: Option<(string, string)>) {
    if |s| > 0 && s[0] == '"' then ParseChars(s[1..]) else None
  }

  function ParseBool(s: string): (r: Option<(bool, string)>) {
    if StartsWith(s, "true") then Some((true, s[4..]))
    else if StartsWith(s, "false") then Some((false, s[5..]))
    else None
  }

  /** Reads the JSON text of a response back; `None` for any other text. */
  function Parse(t: string): (r: Option<Response>) {
    if !StartsWith(t, SuccessKey) then None
    else
      match ParseBool(t[|SuccessKey|..])
      case None => None
      case Some((flag, t1)) => ParseFields(flag, t1)
  }

  /** What follows the `success` flag: the `message` or (only with `false`) the `error` member, then `}`. */
  function ParseFields(flag: bool, t: string): (r: Option<Response>) {
    if StartsWith(t, MessageKey) then
      match ParseString(t[|MessageKey|..])
      case Some((m, "}")) => Some(Reply(flag, m))
      case _ => None
    else if StartsWith(t, ErrorKey) && !flag then
      match ParseString(t[|ErrorKey|..])
      case Some((e, "}")) => Some(Failure(e))
      case _ => None
    else None
  }

  // ---------------------------------------------------------------------------
  // Round trip

  lemma HexDigitValue(d: nat)
    requires d < 16
    ensures HexValue(HexDigit(d)) == Some(d)
  {
  }

  lemma Hex4RoundTrip(n: nat, rest: string)
    requires n < 0x1_0000
    ensures ParseHex4(Hex4(n) + rest) == Some(n)
  {
    var s := Hex4(n) + rest;
    var a, b, c, d := n / 0x1000, n / 0x100 % 0x10, n / 0x10 % 0x10, n % 0x10;
    HexDigitValue(a);
    HexDigitValue(b);
    HexDigitValue(c);
    HexDigitValue(d);
    assert s[0] == HexDigit(a) && s[1] == HexDigit(b) && s[2] == HexDigit(c) && s[3] == HexDigit(d);
    HexPlaces(n);
  }

  /** A 16-bit number is the sum of its four hexadecimal digits times their place values. */
  lemma HexPlaces(n: nat)
    requires n < 0x1_0000
    ensures n == n / 0x1000 * 0x1000 + n / 0x100 % 0x10 * 0x100 + n / 0x10 % 0x10 * 0x10 + n % 0x10
  {
    var q := n / 0x10;
    assert n == q * 0x10 + n % 0x10;
    var q2 := q / 0x10;
    assert q == q2 * 0x10 + q % 0x10;
    assert q2 == n / 0x100;
    var q3 := q2 / 0x10;
    assert q2 == q3 * 0x10 + q2 % 0x10;
    assert q3 == n / 0x1000;
  }

  /** Reading one escaped character gives that character and leaves the rest untouched. */
  lemma EscapeCharRoundTrip(c: char, rest: string)
    ensures ParseUnit(EscapeChar(c) + rest) == Some((c, rest))
  {
    if IsPlain(c) || c == '"' || c == '\\' || c == '\n' || c == '\r' || c == '\t' || c as int == 0x08 || c as int == 0x0C {
      var s := EscapeChar(c) + rest;
      assert s[|EscapeChar(c)|..] == rest;
    } else if c as int < 0x1_0000 {
      BmpEscapeRoundTrip(c, rest);
    } else {
      PairEscapeRoundTrip(c, rest);
    }
  }

  lemma BmpEscapeRoundTrip(c: char, rest: string)
    requires !IsPlain(c) && c != '"' && c != '\\' && c != '\n' && c != '\r' && c != '\t'
    requires c as int != 0x08 && c as int != 0x0C && c as int < 0x1_0000
    ensures ParseUnit(EscapeChar(c) + rest) == Some((c, rest))
  {
    var h := Hex4(c as int);
    assert EscapeChar(c) + rest == "\\u" + (h + rest);
    UnicodeEscapeUnit(h + rest);
    Hex4RoundTrip(c as int, rest);
    Hex4Tail(c as int, rest);
  }

  lemma PairEscapeRoundTrip(c: char, rest: string)
    requires c as int >= 0x1_0000
    ensures ParseUnit(EscapeChar(c) + rest) == Some((c, rest))
  {
    var hi, lo := HighSurrogate(c), LowSurrogate(c);
    assert EscapeChar(c) == "\\u" + Hex4(hi) + "\\u" + Hex4(lo);
    Regroup("\\u", Hex4(hi), "\\u", Hex4(lo), rest);
    UnicodeEscapeUnit(Hex4(hi) + ("\\u" + Hex4(lo) + rest));
    PairRoundTrip(hi, lo, rest);
  }

  /** A backslash and `u` hand the rest of the text to the reader of a `\\uXXXX` escape. */
  lemma UnicodeEscapeUnit(u: string)
    ensures ParseUnit("\\u" + u) == ParseUnicodeEscape(u)
  {
    var s := "\\u" + u;
    assert s[0] == '\\';
    assert s[1..][0] == 'u';
    assert s[1..][1..] == u;
  }

  lemma Hex4Tail(n: nat, rest: string)
    requires n < 0x1_0000
    ensures (Hex4(n) + rest)[4..] == rest
  {
  }

  lemma PairRoundTrip(hi: nat, lo: nat, rest: string)
    requires 0xD800 <= hi < 0xDC00 && 0xDC00 <= lo < 0xE000
    ensures ParseUnicodeEscape(Hex4(hi) + ("\\u" + Hex4(lo) + rest))
            == Some(((0x1_0000 + (hi - 0xD800) * 0x400 + (lo - 0xDC00)) as char, rest))
  {
    var v := Hex4(lo) + rest;
    var w := "\\u" + v;
    assert "\\u" + Hex4(lo) + rest == w;
    var u := Hex4(hi) + w;
    Hex4RoundTrip(hi, w);
    Hex4Tail(hi, w);
    assert u[4..6] == w[..2] == "\\u";
    assert u[6..] == w[2..] == v;
    Hex4RoundTrip(lo, rest);
    Hex4Tail(lo, rest);
    assert u[10..] == v[4..];
  }

  /** Reading an escaped body followed by the closing quote gives the original string back. */
  lemma {:induction false} EscapeRoundTrip(s: string, rest: string)
    ensures ParseChars(Escape(s) + "\"" + rest) == Some((s, rest))
    decreases |s|
  {
    if s == [] {
      assert Escape(s) + "\"" + rest == "\"" + rest;
    } else {
      var e := EscapeChar(s[0]);
      var tail := Escape(s[1..]) + "\"" + rest;
      assert Escape(s) + "\"" + rest == e + tail;
      EscapeCharRoundTrip(s[0], tail);
      EscapeRoundTrip(s[1..], rest);
      assert [s[0]] + s[1..] == s;
    }
  }

  lemma ParseBoolText(b: bool, rest: string)
    ensures ParseBool(BoolText(b) + rest) == Some((b, rest))
  {
    var t := BoolText(b) + rest;
    assert t[0] == BoolText(b)[0];
    if b {
      assert t[..4] == "true";
    } else {
      assert t[..5] == "false";
    }
  }

  lemma StringRoundTrip(s: string, after: string)
    ensures ParseString(Quote(s) + after) == Some((s, after))
  {
    var t := Quote(s) + after;
    assert t[1..] == Escape(s) + "\"" + after;
    EscapeRoundTrip(s, after);
  }

  /** The parser reads back exactly the response that was encoded. */
  lemma RoundTrip(r: Response)
    ensures Parse(Encode(r)) == Some(r)
  {
    match r
    case Reply(b, m) => ReplyRoundTrip(b, m);
    case Failure(e) => FailureRoundTrip(e);
  }

  lemma ReplyRoundTrip(b: bool, m: string)
    ensures Parse(Encode(Reply(b, m))) == Some(Reply(b, m))
  {
    var t1 := MessageKey + Quote(m) + "}";
    EncodeParts(Reply(b, m));
    ParseAfterFlag(b, t1);
    ReplyFields(b, m);
  }

  lemma FailureRoundTrip(e: string)
    ensures Parse(Encode(Failure(e))) == Some(Failure(e))
  {
    var t1 := ErrorKey + Quote(e) + "}";
    EncodeParts(Failure(e));
    ParseAfterFlag(false, t1);
    FailureFields(e);
  }

  /** The encoding read as the `success` key, the flag, and the rest of the object. */
  lemma EncodeParts(r: Response)
    ensures r.Reply? ==> Encode(r) == SuccessKey + (BoolText(r.success) + (MessageKey + Quote(r.message) + "}"))
    ensures r.Failure? ==> Encode(r) == SuccessKey + (BoolText(false) + (ErrorKey + Quote(r.error) + "}"))
  {
    match r
    case Reply(b, m) => Regroup(SuccessKey, BoolText(b), MessageKey, Quote(m), "}");
    case Failure(e) => Regroup(SuccessKey, BoolText(false), ErrorKey, Quote(e), "}");
  }

  lemma Regroup(a: string, b: string, c: string, d: string, e: string)
    ensures a + b + c + d + e == a + (b + (c + d + e))
  {
    var cde := c + d + e;
    assert a + b + c + d + e == (a + b) + cde;
  }

  lemma ParseAfterFlag(b: bool, t1: string)
    ensures Parse(SuccessKey + (BoolText(b) + t1)) == ParseFields(b, t1)
  {
    var t := SuccessKey + (BoolText(b) + t1);
    assert t[..|SuccessKey|] == SuccessKey;
    assert t[|SuccessKey|..] == BoolText(b) + t1;
    ParseBoolText(b, t1);
  }

  lemma ReplyFields(b: bool, m: string)
    ensures ParseFields(b, MessageKey + Quote(m) + "}") == Some(Reply(b, m))
  {
    var t1 := MessageKey + Quote(m) + "}";
    assert t1[..|MessageKey|] == MessageKey;
    assert t1[|MessageKey|..] == Quote(m) + "}";
    StringRoundTrip(m, "}");
  }

  lemma FailureFields(e: string)
    ensures ParseFields(false, ErrorKey + Quote(e) + "}") == Some(Failure(e))
  {
    var t1 := ErrorKey + Quote(e) + "}";
    assert t1[3] != MessageKey[3];
    assert t1[..|ErrorKey|] == ErrorKey;
    assert t1[|ErrorKey|..] == Quote(e) + "}";
    StringRoundTrip(e, "}");
  }
}
