/** JSON strings: how they are quoted, how the scanner cuts them and how escapes are decoded. */
module Strings {
  import opened Text
  import opened Utf8

  // ----- quoting -----

  function HexChar(d: nat): (c: char)
    requires d < 16
    ensures HexDigit(c) && HexDigitValue(c) == d
  {
    if d < 10 then ('0' as int + d) as char else ('A' as int + d - 10) as char
  }

  predicate HexDigit(c: char) {
    '0' <= c <= '9' || 'a' <= c <= 'f' || 'A' <= c <= 'F'
  }

  function HexDigitValue(c: char): (d: nat)
    requires HexDigit(c)
    ensures d < 16
  {
    if c <= '9' then c as int - '0' as int
    else if c <= 'F' then c as int - 'A' as int + 10
    else c as int - 'a' as int + 10
  }

  function Escape(c: char): string {
    match c
    case '"' => "\\\""
    case '\\' => "\\\\"
    case '\n' => "\\n"
    case '\r' => "\\r"
    case '\t' => "\\t"
    case _ =>
      if c == BACKSPACE then "\\b"
      else if c == FORM_FEED then "\\f"
      else if Control(c) then "\\u00" + [HexChar(c as int / 16), HexChar(c as int % 16)]
      else [c]
  }

  function Escapes(s: string): string {
    if s == "" then "" else Escape(s[0]) + Escapes(s[1..])
  }

  function Quote(s: string): string {
    "\"" + Escapes(s) + "\""
  }

  /** The characters `strpbrk` and `containsControlCharacter` look for. */
  predicate NeedsEscape(c: char) {
    c == '"' || c == '\\' || Control(c)
  }

  lemma {:induction false} NothingToEscape(s: string)
    requires forall i :: 0 <= i < |s| ==> !NeedsEscape(s[i])
    ensures Escapes(s) == s
  {
    if s != "" {
      NothingToEscape(s[1..]);
      assert Escape(s[0]) == [s[0]];
    }
  }

  lemma Associates(a: string, b: string, c: string)
    ensures a + (b + c) == a + b + c
  {
  }

  lemma {:induction false} EscapesAppend(a: string, b: string)
    ensures Escapes(a + b) == Escapes(a) + Escapes(b)
  {
    hide Escape;
    if a == "" {
      assert a + b == b;
    } else {
      EscapesAppend(a[1..], b);
      assert (a + b)[1..] == a[1..] + b;
      assert (a + b)[0] == a[0];
      Associates(Escape(a[0]), Escapes(a[1..]), Escapes(b));
    }
  }

  /** The fast path and the character by character path agree. */
  method ValueToQuotedString(value: string) returns (result: string)
    requires NulFree(value)
    ensures result == Quote(value)
  {
    hide Escape;
    if forall i :: 0 <= i < |value| ==> !NeedsEscape(value[i]) {
      NothingToEscape(value);
      return "\"" + value + "\"";
    }
    result := "\"";
    for c := 0 to |value|
      invariant result == "\"" + Escapes(value[..c])
    {
      EscapesAppend(value[..c], [value[c]]);
      assert value[..c + 1] == value[..c] + [value[c]];
      result := result + Escape(value[c]);
    }
    assert value[..|value|] == value;
    result := result + "\"";
  }

  // ----- scanning -----

  datatype Scan = Scan(ok: bool, rest: string)

  /** `readString`, from just behind the opening quote. */
  function ScanString(r: string): (s: Scan)
    ensures Suffix(s.rest, r)
    ensures s.ok ==> |s.rest| < |r|
  {
    if r == "" then Scan(false, "")
    else if r[0] == '\\' then if |r| == 1 then Scan(false, "") else ScanString(r[2..])
    else if r[0] == '"' then Scan(true, r[1..])
    else ScanString(r[1..])
  }

  /** A string body in which every quote is escaped and every backslash has a successor. */
  predicate WellScanned(body: string) {
    body == "" ||
    (if body[0] == '\\' then |body| >= 2 && WellScanned(body[2..])
     else body[0] != '"' && WellScanned(body[1..]))
  }

  /** A token as `readString` accepts it. */
  predicate StringToken(text: string) {
    |text| >= 2 && text[0] == '"' && text[|text| - 1] == '"' && WellScanned(Body(text))
  }

  function Body(text: string): string
    requires |text| >= 2
  {
    text[1..|text| - 1]
  }

  /** The scanner accepts exactly a well-scanned body followed by a quote. */
  lemma {:induction false} ScansBody(body: string, rest: string)
    requires WellScanned(body)
    ensures ScanString(body + "\"" + rest) == Scan(true, rest)
  {
    hide Suffix;
    var r := body + "\"" + rest;
    if body == "" {
      assert r[1..] == rest;
    } else if body[0] == '\\' {
      ScansBody(body[2..], rest);
      assert r[2..] == body[2..] + "\"" + rest;
    } else {
      ScansBody(body[1..], rest);
      assert r[1..] == body[1..] + "\"" + rest;
    }
  }

  lemma {:induction false} ScannedBody(r: string)
    requires ScanString(r).ok
    ensures var rest := ScanString(r).rest;
            var body := r[..|r| - |rest| - 1];
            WellScanned(body) && r == body + "\"" + rest
  {
    hide Suffix;
    var rest := ScanString(r).rest;
    var body := r[..|r| - |rest| - 1];
    if r[0] == '\\' {
      ScannedBody(r[2..]);
      assert r[2..][..|r| - 2 - |rest| - 1] == body[2..];
    } else if r[0] == '"' {
      assert r == "\"" + rest;
    } else {
      ScannedBody(r[1..]);
      assert r[1..][..|r| - 1 - |rest| - 1] == body[1..];
    }
  }

  // ----- decoding -----

  datatype Fault =
    | EmptyEscape
    | BadEscape
    | FourDigitsExpected
    | HexDigitExpected
    | SixMoreExpected
    | SecondHalfExpected

  datatype CodePoint = CodePoint(value: nat, rest: string) | NoCodePoint(fault: Fault)

  /** `decodeUnicodeEscapeSequence`: four hexadecimal digits of either case. */
  function HexQuad(b: string): (u: CodePoint)
    ensures u.CodePoint? ==> u.value <= 0xFFFF && |b| >= 4 && u.rest == b[4..]
  {
    if |b| < 4 then NoCodePoint(FourDigitsExpected)
    else if HexDigit(b[0]) && HexDigit(b[1]) && HexDigit(b[2]) && HexDigit(b[3]) then
      CodePoint(((HexDigitValue(b[0]) * 16 + HexDigitValue(b[1])) * 16 + HexDigitValue(b[2])) * 16 +
                  HexDigitValue(b[3]),
                b[4..])
    else NoCodePoint(HexDigitExpected)
  }

  /** `decodeUnicodeCodePoint`: a high surrogate is joined with whatever code unit comes next. */
  function UnicodeCodePoint(b: string): (u: CodePoint)
    ensures u.CodePoint? ==> u.value <= MAX_CODE_POINT && |u.rest| < |b| && Suffix(u.rest, b)
  {
    var first := HexQuad(b);
    if first.CodePoint? && 0xD800 <= first.value <= 0xDBFF then
      var r := first.rest;
      if |r| < 6 then NoCodePoint(SixMoreExpected)
      else if r[0] == '\\' && r[1] == 'u' then
        match HexQuad(r[2..])
        case NoCodePoint(f) => NoCodePoint(f)
        case CodePoint(second, rest) =>
          CodePoint(0x10000 + first.value % 0x400 * 0x400 + second % 0x400, rest)
      else NoCodePoint(SecondHalfExpected)
    else first
  }

  /** The text decoded and what was left unread when the decoder stopped. */
  datatype Decoded = Decoded(text: string, unread: string) | Bad(fault: Fault)

  function Prepend(p: string, d: Decoded): Decoded {
    match d
    case Decoded(text, unread) => Decoded(p + text, unread)
    case Bad(_) => d
  }

  function SimpleEscape(c: char): Option<char> {
    match c
    case '"' => Some('"')
    case '/' => Some('/')
    case '\\' => Some('\\')
    case 'b' => Some(BACKSPACE)
    case 'f' => Some(FORM_FEED)
    case 'n' => Some('\n')
    case 'r' => Some('\r')
    case 't' => Some('\t')
    case _ => None
  }

  function DecodeChars(b: string): Decoded
    decreases |b|
  {
    if b == "" then Decoded("", "")
    else if b[0] == '"' then Decoded("", b)
    else if b[0] == '\\' then
      if |b| == 1 then Bad(EmptyEscape)
      else if b[1] == 'u' then
        match UnicodeCodePoint(b[2..])
        case NoCodePoint(f) => Bad(f)
        case CodePoint(cp, rest) => Prepend(CodePointToUtf8(cp), DecodeChars(rest))
      else
        match SimpleEscape(b[1])
        case None => Bad(BadEscape)
        case Some(c) => Prepend([c], DecodeChars(b[2..]))
    else Prepend([b[0]], DecodeChars(b[1..]))
  }

  /** `decodeString` on a token, quotes included. */
  function DecodeString(text: string): Decoded
    requires |text| >= 2
  {
    DecodeChars(Body(text))
  }

  lemma PrependTwice(p: string, q: string, d: Decoded)
    ensures Prepend(p, Prepend(q, d)) == Prepend(p + q, d)
  {
    if d.Decoded? {
      assert p + (q + d.text) == p + q + d.text;
    }
  }

  /** Four hexadecimal digits contain neither a quote nor a backslash. */
  lemma SkipsHexQuad(b: string)
    requires WellScanned(b) && HexQuad(b).CodePoint?
    ensures WellScanned(b[4..])
  {
    assert WellScanned(b[1..]) && b[1..][0] == b[1];
    assert WellScanned(b[1..][1..]) && b[1..][1..] == b[2..] && b[2..][0] == b[2];
    assert WellScanned(b[2..][1..]) && b[2..][1..] == b[3..] && b[3..][0] == b[3];
    assert WellScanned(b[3..][1..]) && b[3..][1..] == b[4..];
  }

  lemma SkipsCodePoint(b: string)
    requires WellScanned(b) && UnicodeCodePoint(b).CodePoint?
    ensures WellScanned(UnicodeCodePoint(b).rest)
  {
    SkipsHexQuad(b);
    var first := HexQuad(b);
    if 0xD800 <= first.value <= 0xDBFF {
      SkipsHexQuad(first.rest[2..]);
    }
  }

  /**
   * On a token the scanner accepted, the decoder either reads the whole body or reports a bad
   * escape: it never stops at a bare quote and never finds an escape cut off.
   */
  lemma {:induction false} DecodesWholeBody(b: string)
    requires WellScanned(b)
    ensures match DecodeChars(b)
            case Decoded(_, unread) => unread == ""
            case Bad(f) => f != EmptyEscape
    decreases |b|
  {
    if b == "" {
    } else if b[0] == '\\' {
      if b[1] == 'u' {
        if UnicodeCodePoint(b[2..]).CodePoint? {
          SkipsCodePoint(b[2..]);
          DecodesWholeBody(UnicodeCodePoint(b[2..]).rest);
        }
      } else if SimpleEscape(b[1]).Some? {
        DecodesWholeBody(b[2..]);
      }
    } else {
      DecodesWholeBody(b[1..]);
    }
  }

  // ----- the decoder as the repository runs it -----

  method DecodeUnicodeEscapeSequence(body: string, start: nat) returns (current: nat, u: CodePoint)
    requires start <= |body|
    ensures u == HexQuad(body[start..])
    ensures u.CodePoint? ==> current <= |body| && u.rest == body[current..]
  {
    current := start;
    if |body| - current < 4 {
      return current, NoCodePoint(FourDigitsExpected);
    }
    ghost var b := body[start..];
    var unicode: nat := 0;
    for index := 0 to 4
      invariant current == start + index
      invariant forall j :: 0 <= j < index ==> HexDigit(b[j])
      invariant index == 0 ==> unicode == 0
      invariant index == 1 ==> unicode == HexDigitValue(b[0])
      invariant index == 2 ==> unicode == HexDigitValue(b[0]) * 16 + HexDigitValue(b[1])
      invariant index == 3 ==> unicode == (HexDigitValue(b[0]) * 16 + HexDigitValue(b[1])) * 16 + HexDigitValue(b[2])
      invariant index == 4 ==> HexQuad(b) == CodePoint(unicode, b[4..])
    {
      var c := body[current];
      assert c == b[index];
      current := current + 1;
      if !HexDigit(c) {
        return current, NoCodePoint(HexDigitExpected);
      }
      unicode := unicode * 16 + HexDigitValue(c);
    }
    u := CodePoint(unicode, body[current..]);
  }

  method DecodeUnicodeCodePoint(body: string, start: nat) returns (current: nat, u: CodePoint)
    requires start <= |body|
    ensures u == UnicodeCodePoint(body[start..])
    ensures u.CodePoint? ==> current <= |body| && u.rest == body[current..]
  {
    current, u := DecodeUnicodeEscapeSequence(body, start);
    if u.CodePoint? && 0xD800 <= u.value <= 0xDBFF {
      if |body| - current < 6 {
        return current, NoCodePoint(SixMoreExpected);
      }
      if body[current] == '\\' && body[current + 1] == 'u' {
        var high := u.value;
        current, u := DecodeUnicodeEscapeSequence(body, current + 2);
        if u.CodePoint? {
          u := CodePoint(0x10000 + high % 0x400 * 0x400 + u.value % 0x400, u.rest);
        }
      } else {
        return current, NoCodePoint(SecondHalfExpected);
      }
    }
  }

  method RunDecodeString(text: string) returns (d: Decoded)
    requires StringToken(text)
    ensures d == DecodeString(text)
    ensures d.Decoded? ==> d.unread == ""
    ensures d.Bad? ==> d.fault != EmptyEscape
  {
    var body := Body(text);
    DecodesWholeBody(body);
    var decoded := "";
    var current := 0;
    assert Prepend("", DecodeChars(body)) == DecodeChars(body);
    assert body[0..] == body;
    while current != |body|
      invariant current <= |body|
      invariant WellScanned(body[current..])
      invariant DecodeChars(body) == Prepend(decoded, DecodeChars(body[current..]))
      decreases |body| - current
    {
      ghost var b := body[current..];
      var c := body[current];
      current := current + 1;
      if c == '"' {
        assert false;
      } else if c == '\\' {
        var escape := body[current];
        current := current + 1;
        assert body[current..] == b[2..];
        if escape == 'u' {
          ghost var at := current;
          var u;
          current, u := DecodeUnicodeCodePoint(body, current);
          if u.NoCodePoint? {
            return Bad(u.fault);
          }
          SkipsCodePoint(b[2..]);
          PrependTwice(decoded, CodePointToUtf8(u.value), DecodeChars(body[current..]));
          decoded := decoded + CodePointToUtf8(u.value);
        } else {
          match SimpleEscape(escape)
          case None =>
            return Bad(BadEscape);
          case Some(plain) =>
            PrependTwice(decoded, [plain], DecodeChars(body[current..]));
            decoded := decoded + [plain];
        }
      } else {
        assert body[current..] == b[1..];
        PrependTwice(decoded, [c], DecodeChars(body[current..]));
        decoded := decoded + [c];
      }
    }
    d := Decoded(decoded, "");
  }

  // ----- quoting and decoding undo each other -----

  lemma {:induction false} DecodesEscape(c: char, rest: string)
    requires c != NUL
    ensures DecodeChars(Escape(c) + rest) == Prepend([c], DecodeChars(rest))
    ensures WellScanned(rest) ==> WellScanned(Escape(c) + rest)
  {
    var e := Escape(c) + rest;
    if |Escape(c)| == 6 {
      assert e[2..][4..] == rest;
      assert HexQuad(e[2..]) == CodePoint(c as int, rest);
      assert e[2..][1..][1..][1..][1..] == rest;
      if WellScanned(rest) {
        assert WellScanned(e[2..][1..][1..][1..]);
        assert WellScanned(e[2..][1..][1..]);
        assert WellScanned(e[2..][1..]);
      }
    } else if |Escape(c)| == 2 {
      assert e[2..] == rest;
    } else {
      assert e[1..] == rest;
    }
  }

  lemma {:induction false} DecodesEscapes(s: string)
    requires NulFree(s)
    ensures DecodeChars(Escapes(s)) == Decoded(s, "") && WellScanned(Escapes(s))
  {
    if s != "" {
      DecodesEscapes(s[1..]);
      DecodesEscape(s[0], Escapes(s[1..]));
      assert [s[0]] + s[1..] == s;
    }
  }

  /** A quoted string scans as one token, whatever follows it, and that token decodes to the string. */
  lemma QuoteRoundTrip(s: string, rest: string)
    requires NulFree(s)
    ensures StringToken(Quote(s)) && DecodeString(Quote(s)) == Decoded(s, "")
    ensures ScanString((Quote(s) + rest)[1..]) == Scan(true, rest)
  {
    hide Escapes, DecodeChars, ScanString, WellScanned, Suffix;
    DecodesEscapes(s);
    assert Body(Quote(s)) == Escapes(s);
    ScansBody(Escapes(s), rest);
    assert (Quote(s) + rest)[1..] == Escapes(s) + "\"" + rest;
  }

  // ----- surrogate pairs -----

  lemma SurrogateArithmetic(offset: nat)
    requires offset < 0x100000
    ensures (0xD800 + offset / 0x400) % 0x400 == offset / 0x400 < 0x400
    ensures (0xDC00 + offset % 0x400) % 0x400 == offset % 0x400
    ensures offset / 0x400 * 0x400 + offset % 0x400 == offset
  {
    var high, low := offset / 0x400, offset % 0x400;
    assert 0xD800 + high == 54 * 0x400 + high;
    assert 0xDC00 + low == 55 * 0x400 + low;
  }
}
