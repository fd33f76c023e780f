/** What the scanner does, in terms of the characters themselves. */
module Characters {
  import opened Text
  import opened Strings
  import opened Tokens
  import opened Streams

  // ----- blanks: section 2 of RFC 8259 -----

  const BLANKS := " \t\n\r"

  predicate AllBlank(w: string) {
    forall i :: 0 <= i < |w| ==> w[i] in BLANKS
  }

  lemma BlankIsSpace(c: char)
    ensures c in BLANKS <==> Space(c)
  {
    assert BLANKS == [' ', '\t', '\n', '\r'];
  }

  /** Blanks before a token do not count, and are all that does not count. */
  lemma BlanksAreSkipped(w: string, s: string)
    requires AllBlank(w)
    ensures ReadToken(w + s) == ReadToken(s) && Lex(w + s) == Lex(s)
    ensures s != "" && s[0] !in BLANKS ==> ReadToken(s).text != "" && s == ReadToken(s).text + ReadToken(s).rest
  {
    forall c ensures c in BLANKS <==> Space(c) {
      BlankIsSpace(c);
    }
    AllSkipped(w);
    hide CutToken, Lex;
    BlankPrefix(w, s);
  }

  // ----- tokens of one character, and words -----

  /** What a token with the characters `text` is, if it is one that has no other form. */
  function FixedKind(text: string): Option<Kind> {
    if text == "{" then Some(ObjectBegin)
    else if text == "}" then Some(ObjectEnd)
    else if text == "[" then Some(ArrayBegin)
    else if text == "]" then Some(ArrayEnd)
    else if text == "," then Some(ArraySeparator)
    else if text == ":" then Some(MemberSeparator)
    else if text == "true" then Some(TrueWord)
    else if text == "false" then Some(FalseWord)
    else if text == "null" then Some(NullWord)
    else if text == "\0" then Some(EndOfStream)
    else None
  }

  /** A token without blanks before it is what its first character makes it. */
  lemma CutIsRead(s: string, text: string, kind: Kind, rest: string)
    requires s == text + rest && text != "" && !Space(s[0]) && CutToken(s) == Cut(kind, rest)
    ensures ReadToken(s) == Token(kind, text, rest)
  {
    hide CutToken;
    assert s[..|s| - |rest|] == text;
  }

  lemma FixedTokens(text: string, rest: string)
    requires FixedKind(text).Some?
    ensures ReadToken(text + rest) == Token(FixedKind(text).value, text, rest)
  {
    var s := text + rest;
    assert s[0] == text[0];
    assert s[1..] == text[1..] + rest && s[|text|..] == rest;
    if text == "true" || text == "false" || text == "null" {
      WordScans(text, rest);
    }
    CutFixed(text, rest);
    hide CutToken, ReadToken, FixedKind;
    CutIsRead(s, text, FixedKind(text).value, rest);
  }

  lemma WordScans(text: string, rest: string)
    requires text != ""
    ensures ScanWord((text + rest)[1..], text[1..]) == Scan(true, rest)
  {
    var r := (text + rest)[1..];
    assert r == text[1..] + rest;
    assert r[|text[1..]|..] == rest;
  }

  lemma CutFixed(text: string, rest: string)
    requires FixedKind(text).Some?
    ensures var s := text + rest; !Space(s[0]) && CutToken(s) == Cut(FixedKind(text).value, rest)
  {
    var s := text + rest;
    assert s[0] == text[0];
    assert s[1..] == text[1..] + rest;
    assert |text| == 1 ==> text[1..] == "" && s[1..] == rest;
    WordScans(text, rest);
    assert text == "true" ==> text[1..] == "rue";
    assert text == "false" ==> text[1..] == "alse";
    assert text == "null" ==> text[1..] == "ull";
  }

  /** A letter that begins a word, without the rest of the word behind it, is an erroneous token by itself. */
  lemma BrokenWords(s: string)
    requires s != "" && s[0] in "tfn" && !("true" <= s) && !("false" <= s) && !("null" <= s)
    ensures ReadToken(s) == Token(Erroneous, s[..1], s[1..])
  {
    WordBroken(s);
    hide CutToken, ReadToken;
    assert s == s[..1] + s[1..];
    CutIsRead(s, s[..1], Erroneous, s[1..]);
  }

  lemma WordBroken(s: string)
    requires s != "" && s[0] in "tfn" && !("true" <= s) && !("false" <= s) && !("null" <= s)
    ensures CutToken(s) == Cut(Erroneous, s[1..]) && !Space(s[0])
  {
    var r := s[1..];
    assert s == [s[0]] + r;
    NotThere('t', "rue", "true", s);
    NotThere('f', "alse", "false", s);
    NotThere('n', "ull", "null", s);
  }

  lemma NotThere(first: char, others: string, word: string, s: string)
    requires word == [first] + others && s != "" && !(word <= s)
    ensures s[0] == first ==> !(others <= s[1..])
  {
  }

  /** A character that begins no token is an erroneous one by itself. */
  lemma OtherCharacters(s: string)
    requires s != "" && s[0] !in BLANKS && s[0] !in "{}[],:\"/0123456789-tfn\0"
    ensures ReadToken(s) == Token(Erroneous, s[..1], s[1..])
  {
    BlankIsSpace(s[0]);
    NoFirst(s[0]);
    hide ReadToken, Space;
    CutIsRead(s, s[..1], Erroneous, s[1..]);
  }

  lemma NoFirst(c: char)
    requires c !in "{}[],:\"/0123456789-tfn\0"
    ensures c != '{' && c != '}' && c != '[' && c != ']' && c != ',' && c != ':' && c != '"' && c != '/' && c != 't' &&
            c != 'f' && c != 'n' && c != '-' && c != NUL && !Digit(c)
  {
    var firsts := "{}[],:\"/0123456789-tfn\0";
    assert forall i :: 0 <= i < |firsts| ==> c != firsts[i];
    assert firsts[0] == '{' && firsts[1] == '}' && firsts[2] == '[' && firsts[3] == ']' && firsts[4] == ',';
    assert firsts[5] == ':' && firsts[6] == '"' && firsts[7] == '/' && firsts[18] == '-' && firsts[19] == 't';
    assert firsts[20] == 'f' && firsts[21] == 'n' && firsts[22] == NUL;
    assert firsts[8] == '0' && firsts[9] == '1' && firsts[10] == '2' && firsts[11] == '3' && firsts[12] == '4';
    assert firsts[13] == '5' && firsts[14] == '6' && firsts[15] == '7' && firsts[16] == '8' && firsts[17] == '9';
  }

  // ----- numbers -----

  const NUMBER_CHARACTERS := "0123456789.eE+-"

  lemma IsNumberChar(c: char)
    ensures c in NUMBER_CHARACTERS <==> NumberChar(c)
    ensures c in NUMBER_CHARACTERS[..10] <==> Digit(c)
  {
    var cs := NUMBER_CHARACTERS;
    assert cs[0] == '0' && cs[1] == '1' && cs[2] == '2' && cs[3] == '3' && cs[4] == '4' && cs[5] == '5';
    assert cs[6] == '6' && cs[7] == '7' && cs[8] == '8' && cs[9] == '9';
    assert cs[10] == '.' && cs[11] == 'e' && cs[12] == 'E' && cs[13] == '+' && cs[14] == '-';
    if Digit(c) {
      var d := c as int - '0' as int;
      assert cs[d] == c && cs[..10][d] == c;
    }
    if NumberChar(c) && !Digit(c) {
      assert c == cs[10] || c == cs[11] || c == cs[12] || c == cs[13] || c == cs[14];
    }
  }

  /** A number token is as long as the run of such characters. */
  lemma NumberTokens(text: string, rest: string)
    requires text != "" && text[0] in "0123456789-" && forall i :: 0 <= i < |text| ==> text[i] in NUMBER_CHARACTERS
    requires rest == "" || rest[0] !in NUMBER_CHARACTERS
    ensures ReadToken(text + rest) == Token(NumberLiteral, text, rest)
  {
    FirstOfNumber(text[0]);
    forall i | 0 <= i < |text| ensures NumberChar(text[i]) {
      IsNumberChar(text[i]);
    }
    if rest != "" {
      IsNumberChar(rest[0]);
    }
    var s := text + rest;
    assert s[1..] == text[1..] + rest;
    AllNumber(text[1..]);
    NumberExtends(text[1..], rest);
    SkipsNothing(rest);
    CutOfNumber(s);
    hide ReadToken, CutToken, SkipNumber, NumberChar;
    CutIsRead(s, text, NumberLiteral, rest);
  }

  lemma SkipsNothing(rest: string)
    requires rest == "" || !NumberChar(rest[0])
    ensures SkipNumber("" + rest) == rest && "" + rest == rest
  {
  }

  lemma FirstOfNumber(c: char)
    requires c in "0123456789-"
    ensures Digit(c) || c == '-'
    ensures !Space(c)
  {
    var firsts := "0123456789-";
    assert forall i :: 0 <= i < |firsts| ==> Digit(firsts[i]) || firsts[i] == '-';
  }

  lemma CutOfNumber(s: string)
    requires s != "" && (Digit(s[0]) || s[0] == '-')
    ensures CutToken(s) == Cut(NumberLiteral, SkipNumber(s[1..]))
  {
    hide SkipNumber;
  }

  // ----- comments -----

  /** No "*" stands right before a "/". */
  predicate Unclosed(w: string) {
    forall i :: 0 <= i < |w| - 1 ==> !(w[i] == '*' && w[i + 1] == '/')
  }

  lemma {:induction false} FirstCloseEnds(w: string, rest: string)
    requires Unclosed(w)
    ensures ScanCStyle(w + "*/" + rest) == Scan(true, rest)
    ensures ScanCStyle(w) == Scan(false, "")
  {
    var r := w + "*/" + rest;
    if w == "" {
      assert r[2..] == rest;
    } else {
      assert r[1..] == w[1..] + "*/" + rest;
      assert r[0] == w[0] && (|w| > 1 ==> r[1] == w[1]) && (|w| == 1 ==> r[1] == '*');
      FirstCloseEnds(w[1..], rest);
    }
  }

  lemma {:induction false} FirstBreakEnds(w: string, end: char, rest: string)
    requires '\r' !in w && '\n' !in w && (end == '\r' || end == '\n')
    ensures SkipLine(w + [end] + rest) == rest && SkipLine(w) == ""
  {
    var r := w + [end] + rest;
    if w == "" {
      assert r[1..] == rest;
    } else {
      assert r[1..] == w[1..] + [end] + rest && r[0] == w[0];
      FirstBreakEnds(w[1..], end, rest);
    }
  }

  lemma SlashIsComment(s: string)
    requires s != "" && s[0] == '/'
    ensures CutToken(s) == CutIf(Comment, ScanComment(s[1..])) && !Space(s[0])
  {
    hide ScanComment;
  }

  lemma CommentCases(r: string)
    ensures r == "" ==> ScanComment(r) == Scan(false, "")
    ensures r != "" && r[0] == '*' ==> ScanComment(r) == ScanCStyle(r[1..])
    ensures r != "" && r[0] == '/' ==> ScanComment(r) == Scan(true, SkipLine(r[1..]))
    ensures r != "" && r[0] != '*' && r[0] != '/' ==> ScanComment(r) == Scan(false, r[1..])
  {
    hide ScanCStyle, SkipLine;
  }

  lemma CommentOpens(second: char, r: string)
    requires second == '*' || second == '/'
    ensures var s := ['/', second] + r;
            !Space(s[0]) &&
            CutToken(s) == CutIf(Comment, if second == '*' then ScanCStyle(r) else Scan(true, SkipLine(r)))
  {
    hide CutToken, ScanComment, ScanCStyle, SkipLine;
    var s := ['/', second] + r;
    assert s[1..] == [second] + r && s[1..][1..] == r;
    SlashIsComment(s);
    CommentCases(s[1..]);
  }

  /** A comment ends behind its first close, and is an error up to the end of the text without one. */
  lemma BlockComments(w: string, rest: string)
    requires Unclosed(w)
    ensures ReadToken("/*" + w + "*/" + rest) == Token(Comment, "/*" + w + "*/", rest)
    ensures ReadToken("/*" + w) == Token(Erroneous, "/*" + w, "")
  {
    hide *;
    FirstCloseEnds(w, rest);
    CommentOpens('*', w + "*/" + rest);
    CommentOpens('*', w);
    var s, t := "/*" + w + "*/" + rest, "/*" + w;
    assert s == ['/', '*'] + (w + "*/" + rest) && t == ['/', '*'] + w;
    CutsTo(s, "/*" + w + "*/", Comment, rest);
    assert t == t + "";
    CutsTo(t, t, Erroneous, "");
  }

  lemma CutsTo(s: string, text: string, kind: Kind, rest: string)
    requires s != "" && !Space(s[0]) && s == text + rest
    requires CutToken(s) == CutIf(Comment, Scan(kind != Erroneous, rest)) && (kind == Comment || kind == Erroneous)
    ensures ReadToken(s) == Token(kind, text, rest)
  {
    hide CutToken, ReadToken, Space;
    CutIsRead(s, text, kind, rest);
  }

  /** A comment on a line ends behind the first carriage return or new line, or at the end of the text. */
  lemma LineComments(w: string, end: char, rest: string)
    requires '\r' !in w && '\n' !in w && (end == '\r' || end == '\n')
    ensures ReadToken("//" + w + [end] + rest) == Token(Comment, "//" + w + [end], rest)
    ensures ReadToken("//" + w) == Token(Comment, "//" + w, "")
  {
    hide *;
    FirstBreakEnds(w, end, rest);
    CommentOpens('/', w + [end] + rest);
    CommentOpens('/', w);
    var s, t := "//" + w + [end] + rest, "//" + w;
    assert s == ['/', '/'] + (w + [end] + rest) && t == ['/', '/'] + w;
    CutsTo(s, "//" + w + [end], Comment, rest);
    assert t == t + "";
    CutsTo(t, t, Comment, "");
  }

  /** A slash before anything else is an error of two characters, or of one at the end of the text. */
  lemma LoneSlash(s: string)
    requires s != "" && s[0] == '/' && (|s| > 1 ==> s[1] != '*' && s[1] != '/')
    ensures ReadToken(s) == Token(Erroneous, s[..if |s| == 1 then 1 else 2], s[if |s| == 1 then 1 else 2..])
  {
    SlashIsComment(s);
    CommentCases(s[1..]);
    var k := if |s| == 1 then 1 else 2;
    hide CutToken, ReadToken, ScanComment;
    assert s == s[..k] + s[k..];
    CutIsRead(s, s[..k], Erroneous, s[k..]);
  }

  // ----- strings -----

  /** In a string every backslash takes the next character with it, and the first other quote ends it. */
  lemma StringTokens(body: string, rest: string)
    requires WellScanned(body)
    ensures ReadToken("\"" + body + "\"" + rest) == Token(StringLiteral, "\"" + body + "\"", rest)
  {
    hide *;
    var s := "\"" + body + "\"" + rest;
    assert s[1..] == body + "\"" + rest;
    ScansBody(body, rest);
    QuoteOpens(s);
    CutIsRead(s, "\"" + body + "\"", StringLiteral, rest);
  }

  /** Without that quote, all the text is one erroneous token. */
  lemma UnclosedStrings(body: string)
    requires WellScanned(body)
    ensures ReadToken("\"" + body) == Token(Erroneous, "\"" + body, "")
    ensures ReadToken("\"" + body + "\\") == Token(Erroneous, "\"" + body + "\\", "")
  {
    hide *;
    ScansUnclosed(body, "");
    ScansUnclosed(body, "\\");
    EndlessString("\"" + body, body + "");
    EndlessString("\"" + body + "\\", body + "\\");
  }

  lemma {:induction false} ScansUnclosed(body: string, last: string)
    requires WellScanned(body) && (last == "" || last == "\\")
    ensures ScanString(body + last) == Scan(false, "")
  {
    hide Suffix;
    var r := body + last;
    if body == "" {
      assert r == last;
    } else if body[0] == '\\' {
      ScansUnclosed(body[2..], last);
      assert r[2..] == body[2..] + last;
    } else {
      ScansUnclosed(body[1..], last);
      assert r[1..] == body[1..] + last;
    }
  }

  lemma EndlessString(s: string, r: string)
    requires s == "\"" + r && ScanString(r) == Scan(false, "")
    ensures ReadToken(s) == Token(Erroneous, s, "")
  {
    hide ReadToken, CutToken, ScanString;
    assert s[1..] == r && s == s + "";
    QuoteOpens(s);
    CutIsRead(s, s, Erroneous, "");
  }

  lemma QuoteOpens(s: string)
    requires s != "" && s[0] == '"'
    ensures CutToken(s) == (if ScanString(s[1..]).ok then Cut(StringLiteral, ScanString(s[1..]).rest)
                            else Cut(Erroneous, ScanString(s[1..]).rest))
    ensures !Space(s[0])
  {
    hide ScanString;
  }
}
