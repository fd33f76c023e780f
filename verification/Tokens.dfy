/** The scanner: `readToken` and what it calls, as functions of the text that is left to read. */
module Tokens {
  import opened Text
  import opened Numbers
  import opened Strings

  datatype Kind =
    | EndOfStream
    | ObjectBegin
    | ObjectEnd
    | ArrayBegin
    | ArrayEnd
    | StringLiteral
    | NumberLiteral
    | TrueWord
    | FalseWord
    | NullWord
    | ArraySeparator
    | MemberSeparator
    | Comment
    | Erroneous

  /** A token, its characters and the text behind it. */
  datatype Token = Token(kind: Kind, text: string, rest: string)

  /** What of a token does not depend on where it stands. */
  datatype Lexeme = Lexeme(kind: Kind, text: string)

  function SkipSpaces(r: string): (s: string)
    ensures Suffix(s, r)
    ensures s != "" ==> !Space(s[0])
  {
    if r != "" && Space(r[0]) then SkipSpaces(r[1..]) else r
  }

  function SkipNumber(r: string): (s: string)
    ensures Suffix(s, r)
    ensures forall i :: 0 <= i < |r| - |s| ==> NumberChar(r[i])
    ensures s != "" ==> !NumberChar(s[0])
  {
    if r != "" && NumberChar(r[0]) then SkipNumber(r[1..]) else r
  }

  /** From behind the opening of a C-style comment to behind its end. */
  function ScanCStyle(r: string): (s: Scan)
    ensures Suffix(s.rest, r)
  {
    if r == "" then Scan(false, "")
    else if r[0] == '*' && |r| > 1 && r[1] == '/' then Scan(true, r[2..])
    else ScanCStyle(r[1..])
  }

  function SkipLine(r: string): (s: string)
    ensures Suffix(s, r)
  {
    if r == "" then "" else if r[0] == '\r' || r[0] == '\n' then r[1..] else SkipLine(r[1..])
  }

  /** `readComment`, from behind the first slash. */
  function ScanComment(r: string): (s: Scan)
    ensures Suffix(s.rest, r)
  {
    if r == "" then Scan(false, "")
    else if r[0] == '*' then ScanCStyle(r[1..])
    else if r[0] == '/' then Scan(true, SkipLine(r[1..]))
    else Scan(false, r[1..])
  }

  /** `match`. */
  function ScanWord(r: string, pattern: string): (s: Scan)
    ensures Suffix(s.rest, r)
  {
    if pattern <= r then Scan(true, r[|pattern|..]) else Scan(false, r)
  }

  datatype Cut = Cut(kind: Kind, rest: string)

  function CutIf(kind: Kind, s: Scan): Cut {
    Cut(if s.ok then kind else Erroneous, s.rest)
  }

  /** One token, from its first character on.  A NUL character counts as the end of the stream. */
  function CutToken(s: string): (c: Cut)
    requires s != ""
    ensures |c.rest| < |s| && Suffix(c.rest, s)
  {
    var r := s[1..];
    match s[0]
    case '{' => Cut(ObjectBegin, r)
    case '}' => Cut(ObjectEnd, r)
    case '[' => Cut(ArrayBegin, r)
    case ']' => Cut(ArrayEnd, r)
    case ',' => Cut(ArraySeparator, r)
    case ':' => Cut(MemberSeparator, r)
    case '"' => CutIf(StringLiteral, ScanString(r))
    case '/' => CutIf(Comment, ScanComment(r))
    case 't' => CutIf(TrueWord, ScanWord(r, "rue"))
    case 'f' => CutIf(FalseWord, ScanWord(r, "alse"))
    case 'n' => CutIf(NullWord, ScanWord(r, "ull"))
    case _ =>
      if Digit(s[0]) || s[0] == '-' then Cut(NumberLiteral, SkipNumber(r))
      else if s[0] == NUL then Cut(EndOfStream, r)
      else Cut(Erroneous, r)
  }

  /** `readToken`: only at the true end of the text does a token have no characters. */
  function ReadToken(r: string): (t: Token)
    ensures Suffix(t.rest, r) && (t.text != "" ==> |t.rest| < |r|)
    ensures t.text == "" ==> t == Token(EndOfStream, "", "")
    ensures SkipSpaces(r) == t.text + t.rest && Suffix(t.text + t.rest, r)
  {
    var s := SkipSpaces(r);
    if s == "" then Token(EndOfStream, "", "")
    else
      MakeToken(s, CutToken(s))
  }

  function MakeToken(s: string, c: Cut): (t: Token)
    requires Suffix(c.rest, s)
    ensures s == t.text + t.rest
  {
    Token(c.kind, s[..|s| - |c.rest|], c.rest)
  }

  lemma StringShape(s: string)
    requires s != "" && s[0] == '"' && ScanString(s[1..]).ok
    ensures StringToken(MakeToken(s, Cut(StringLiteral, ScanString(s[1..]).rest)).text)
  {
    hide ScanString;
    var r := s[1..];
    ScannedBody(r);
    var rest := ScanString(r).rest;
    var body := r[..|r| - |rest| - 1];
    var text := MakeToken(s, Cut(StringLiteral, rest)).text;
    assert s == "\"" + r;
    assert text == "\"" + body + "\"";
    assert Body(text) == body;
  }

  lemma NumberShape(s: string)
    requires s != "" && (Digit(s[0]) || s[0] == '-')
    ensures NumberToken(MakeToken(s, Cut(NumberLiteral, SkipNumber(s[1..]))).text)
  {
    var text := MakeToken(s, Cut(NumberLiteral, SkipNumber(s[1..]))).text;
    forall i | 0 <= i < |text| ensures NumberChar(text[i]) {
      assert i > 0 ==> text[i] == s[1..][i - 1];
    }
  }

  /** Only a quote opens a string token, only a digit or a minus sign a number. */
  lemma CutLiteral(s: string)
    requires s != ""
    ensures CutToken(s).kind.StringLiteral? ==>
              s[0] == '"' && ScanString(s[1..]).ok && CutToken(s).rest == ScanString(s[1..]).rest
    ensures CutToken(s).kind.NumberLiteral? ==>
              (Digit(s[0]) || s[0] == '-') && CutToken(s).rest == SkipNumber(s[1..])
  {
  }

  /** A literal token has the form its decoder expects. */
  lemma LiteralShape(r: string)
    ensures var t := ReadToken(r);
            (t.kind.StringLiteral? ==> StringToken(t.text)) && (t.kind.NumberLiteral? ==> NumberToken(t.text))
  {
    hide CutToken, StringToken, NumberToken;
    var s := SkipSpaces(r);
    if s != "" {
      CutLiteral(s);
      if CutToken(s).kind.StringLiteral? {
        StringShape(s);
      } else if CutToken(s).kind.NumberLiteral? {
        NumberShape(s);
      }
    }
  }

  // ----- token streams -----

  /** The tokens up to the true end of the text. */
  function Lex(r: string): seq<Lexeme>
    decreases |r|
  {
    var t := ReadToken(r);
    if t.text == "" then [] else [Lexeme(t.kind, t.text)] + Lex(t.rest)
  }

  predicate SolidKind(k: Kind) {
    !k.EndOfStream? && !k.Erroneous? && !k.Comment?
  }

  /** Neither comments nor scanning errors nor NUL characters between tokens. */
  predicate Solid(r: string)
    decreases |r|
  {
    var t := ReadToken(r);
    t.text == "" || (SolidKind(t.kind) && Solid(t.rest))
  }

  lemma LexStep(r: string)
    requires Lex(r) != []
    ensures var t := ReadToken(r);
            Lex(r)[0] == Lexeme(t.kind, t.text) && Lex(r)[1..] == Lex(t.rest) && t.text != ""
  {
  }

  lemma {:induction false} SkipsBlanks(a: string, b: string)
    requires SkipSpaces(a) == ""
    ensures SkipSpaces(a + b) == SkipSpaces(b)
  {
    hide Suffix, Space;
    if a == "" {
      assert a + b == b;
    } else {
      SkipsBlanks(a[1..], b);
      assert (a + b)[1..] == a[1..] + b;
    }
  }

  lemma {:induction false} SpacesExtend(a: string, b: string)
    requires SkipSpaces(a) != ""
    ensures SkipSpaces(a + b) == SkipSpaces(a) + b
  {
    hide Suffix, Space;
    if Space(a[0]) {
      SpacesExtend(a[1..], b);
      assert (a + b)[1..] == a[1..] + b;
    }
  }

  lemma {:induction false} NumberExtends(a: string, b: string)
    requires SkipNumber(a) != "" || b == "" || !NumberChar(b[0])
    ensures SkipNumber(a + b) == SkipNumber(a) + b
  {
    hide Suffix, NumberChar;
    if a == "" {
      assert a + b == b;
    } else if NumberChar(a[0]) {
      NumberExtends(a[1..], b);
      assert (a + b)[1..] == a[1..] + b;
    }
  }

  lemma {:induction false} StringExtends(a: string, b: string)
    requires ScanString(a).ok
    ensures ScanString(a + b) == Scan(true, ScanString(a).rest + b)
  {
    if a[0] == '\\' {
      StringExtends(a[2..], b);
      assert (a + b)[2..] == a[2..] + b;
    } else {
      assert (a + b)[1..] == a[1..] + b;
      if a[0] != '"' {
        StringExtends(a[1..], b);
      }
    }
  }

  lemma WordExtends(a: string, b: string, pattern: string)
    requires ScanWord(a, pattern).ok
    ensures ScanWord(a + b, pattern) == Scan(true, ScanWord(a, pattern).rest + b)
  {
    assert (a + b)[|pattern|..] == a[|pattern|..] + b;
  }

  /** Text appended behind a token leaves it alone, unless it makes a number longer. */
  lemma CutExtends(a: string, b: string)
    requires a != "" && SolidKind(CutToken(a).kind)
    requires CutToken(a).kind.NumberLiteral? && CutToken(a).rest == "" ==> b == "" || !NumberChar(b[0])
    ensures CutToken(a + b) == Cut(CutToken(a).kind, CutToken(a).rest + b)
  {
    hide Suffix, ScanString, ScanWord, SkipNumber, ScanComment;
    assert (a + b)[1..] == a[1..] + b;
    match a[0]
    case '"' => StringExtends(a[1..], b);
    case 't' => WordExtends(a[1..], b, "rue");
    case 'f' => WordExtends(a[1..], b, "alse");
    case 'n' => WordExtends(a[1..], b, "ull");
    case _ =>
      if Digit(a[0]) || a[0] == '-' {
        NumberExtends(a[1..], b);
      }
  }

  lemma MadeTokenExtends(s: string, c: Cut, b: string)
    requires Suffix(c.rest, s)
    ensures MakeToken(s + b, Cut(c.kind, c.rest + b)) == MakeToken(s, c).(rest := c.rest + b)
  {
    assert (s + b)[|s| - |c.rest|..] == c.rest + b;
    assert (s + b)[..|s + b| - |c.rest + b|] == s[..|s| - |c.rest|];
  }

  lemma TokenExtends(a: string, b: string)
    requires ReadToken(a).text != "" && SolidKind(ReadToken(a).kind)
    requires ReadToken(a).kind.NumberLiteral? && ReadToken(a).rest == "" ==> b == "" || !NumberChar(b[0])
    ensures ReadToken(a + b) == ReadToken(a).(rest := ReadToken(a).rest + b)
  {
    var s := SkipSpaces(a);
    SpacesExtend(a, b);
    CutExtends(s, b);
    hide CutToken;
    MadeTokenExtends(s, CutToken(s), b);
  }

  lemma NumberEndsInNumberChar(a: string)
    requires ReadToken(a).kind.NumberLiteral? && ReadToken(a).rest == ""
    ensures a != "" && NumberChar(a[|a| - 1])
  {
    hide CutToken, ReadToken, MakeToken, SkipSpaces, NumberChar;
    LiteralShape(a);
    var t := ReadToken(a);
    var s := SkipSpaces(a);
    assert s == t.text by { assert t.text + "" == t.text; }
    assert a[|a| - 1] == s[|s| - 1];
  }

  lemma LexUnfolds(r: string, t: Token)
    requires t == ReadToken(r)
    ensures Lex(r) == if t.text == "" then [] else [Lexeme(t.kind, t.text)] + Lex(t.rest)
    ensures Solid(r) == (t.text == "" || (SolidKind(t.kind) && Solid(t.rest)))
  {
  }

  lemma SpacesDecide(r: string, r': string)
    requires SkipSpaces(r) == SkipSpaces(r')
    ensures ReadToken(r) == ReadToken(r') && Lex(r) == Lex(r') && Solid(r) == Solid(r')
  {
    hide CutToken, MakeToken;
    assert ReadToken(r) == ReadToken(r');
    hide *;
    LexUnfolds(r, ReadToken(r));
    LexUnfolds(r', ReadToken(r));
  }

  lemma BlankPrefix(a: string, b: string)
    requires ReadToken(a).text == ""
    ensures ReadToken(a + b) == ReadToken(b) && Lex(a + b) == Lex(b) && Solid(a + b) == Solid(b)
  {
    hide *;
    assert SkipSpaces(a) == "" by {
      assert "" + "" == "";
    }
    SkipsBlanks(a, b);
    SpacesDecide(a + b, b);
  }

  /** Solid texts put together where no number can grow scan as the concatenation of their tokens. */
  lemma {:induction false} LexAppend(a: string, b: string)
    requires Solid(a) && Joins(a, b)
    ensures Lex(a + b) == Lex(a) + Lex(b)
    ensures Solid(b) ==> Solid(a + b)
    decreases |a|
  {
    hide *;
    var t := ReadToken(a);
    LexUnfolds(a, t);
    if t.text == "" {
      BlankPrefix(a, b);
    } else {
      assert t.kind.NumberLiteral? && t.rest == "" ==> b == "" || !NumberChar(b[0]) by {
        LastNumber(a, b);
      }
      TokenExtends(a, b);
      LexUnfolds(a + b, ReadToken(a + b));
      JoinsSuffix(a, t.rest, b);
      LexAppend(t.rest, b);
      assert [Lexeme(t.kind, t.text)] + (Lex(t.rest) + Lex(b)) == [Lexeme(t.kind, t.text)] + Lex(t.rest) + Lex(b);
    }
  }

  lemma LastNumber(a: string, b: string)
    requires Joins(a, b)
    ensures ReadToken(a).kind.NumberLiteral? && ReadToken(a).rest == "" ==> b == "" || !NumberChar(b[0])
  {
    hide CutToken;
    if ReadToken(a).kind.NumberLiteral? && ReadToken(a).rest == "" {
      NumberEndsInNumberChar(a);
    }
  }

  lemma JoinsSuffix(a: string, r: string, b: string)
    requires Joins(a, b) && Suffix(r, a)
    ensures Joins(r, b)
  {
  }

  // ----- cutting the text short behind a token -----

  /** `t` without its last `k` characters. */
  function Shorter(t: string, k: nat): string
    requires k <= |t|
  {
    t[..|t| - k]
  }

  lemma {:induction false} SpacesRestrict(a: string, b: string)
    requires |SkipSpaces(a + b)| > |b|
    ensures SkipSpaces(a) == Shorter(SkipSpaces(a + b), |b|) != ""
  {
    if a == "" {
      assert false;
    } else if Space(a[0]) {
      assert (a + b)[1..] == a[1..] + b;
      SpacesRestrict(a[1..], b);
    } else {
      assert (a + b)[..|a|] == a;
    }
  }

  lemma {:induction false} NumberRestricts(a: string, b: string)
    requires |SkipNumber(a + b)| >= |b|
    ensures SkipNumber(a) == Shorter(SkipNumber(a + b), |b|)
  {
    if a != "" && NumberChar(a[0]) {
      assert (a + b)[1..] == a[1..] + b;
      NumberRestricts(a[1..], b);
    } else if a != "" {
      assert (a + b)[..|a|] == a;
    }
  }

  lemma {:induction false} StringRestricts(a: string, b: string)
    requires ScanString(a + b).ok && |ScanString(a + b).rest| >= |b|
    ensures ScanString(a) == Scan(true, Shorter(ScanString(a + b).rest, |b|))
  {
    if a == "" {
      assert false;
    } else if a[0] == '\\' {
      if |a| == 1 {
        assert false;
      } else {
        assert (a + b)[2..] == a[2..] + b;
        StringRestricts(a[2..], b);
      }
    } else {
      assert (a + b)[1..] == a[1..] + b;
      if a[0] == '"' {
        assert Shorter(a[1..] + b, |b|) == a[1..];
      } else {
        StringRestricts(a[1..], b);
      }
    }
  }

  lemma CStyleEnds(a: string, b: string)
    requires a != "" && |a + b| > 1 && a[0] == '*' && (a + b)[1] == '/'
    requires |ScanCStyle(a + b).rest| >= |b|
    ensures ScanCStyle(a) == Scan(true, Shorter(ScanCStyle(a + b).rest, |b|))
  {
    assert |a| > 1;
    assert (a + b)[2..] == a[2..] + b;
    assert Shorter(a[2..] + b, |b|) == a[2..];
  }

  lemma {:induction false} CStyleRestricts(a: string, b: string)
    requires ScanCStyle(a + b).ok && |ScanCStyle(a + b).rest| >= |b|
    ensures ScanCStyle(a) == Scan(true, Shorter(ScanCStyle(a + b).rest, |b|))
  {
    if a == "" {
      CStyleShortens(b);
      assert false;
    } else if a[0] == '*' && |a + b| > 1 && (a + b)[1] == '/' {
      CStyleEnds(a, b);
    } else {
      assert (a + b)[1..] == a[1..] + b;
      CStyleRestricts(a[1..], b);
    }
  }

  lemma {:induction false} CStyleShortens(r: string)
    requires ScanCStyle(r).ok
    ensures |ScanCStyle(r).rest| + 2 <= |r|
  {
    if !(r[0] == '*' && |r| > 1 && r[1] == '/') {
      CStyleShortens(r[1..]);
    }
  }

  lemma LineShortens(r: string)
    ensures r != "" ==> |SkipLine(r)| < |r|
  {
  }

  lemma {:induction false} LineRestricts(a: string, b: string)
    requires |SkipLine(a + b)| >= |b|
    ensures SkipLine(a) == Shorter(SkipLine(a + b), |b|)
  {
    if a == "" {
      assert a + b == b;
      LineShortens(b);
    } else {
      assert (a + b)[1..] == a[1..] + b;
      if a[0] == '\r' || a[0] == '\n' {
        assert Shorter(a[1..] + b, |b|) == a[1..];
      } else {
        LineRestricts(a[1..], b);
      }
    }
  }

  /** Scans that fail either reach the end of the text or fail on the shorter text, too. */
  lemma {:induction false} FailedStringsEnd(r: string)
    ensures !ScanString(r).ok ==> ScanString(r).rest == ""
  {
    hide Suffix;
    if |r| > 1 && r[0] == '\\' {
      FailedStringsEnd(r[2..]);
    } else if r != "" && r[0] != '"' && r[0] != '\\' {
      FailedStringsEnd(r[1..]);
    }
  }

  lemma {:induction false} FailedCommentsEnd(r: string)
    ensures !ScanCStyle(r).ok ==> ScanCStyle(r).rest == ""
  {
    hide Suffix;
    if r != "" && !(r[0] == '*' && |r| > 1 && r[1] == '/') {
      FailedCommentsEnd(r[1..]);
    }
  }

  lemma CutRestricts(a: string, b: string)
    requires a != "" && b != "" && |CutToken(a + b).rest| >= |b|
    ensures CutToken(a) == Cut(CutToken(a + b).kind, Shorter(CutToken(a + b).rest, |b|))
  {
    hide Suffix, ScanString, ScanWord, SkipNumber, ScanComment;
    var r := a[1..];
    assert (a + b)[1..] == r + b;
    assert Shorter(r + b, |b|) == r;
    match a[0]
    case '"' =>
      FailedStringsEnd(r + b);
      StringRestricts(r, b);
    case '/' => CommentRestricts(r, b);
    case 't' => WordRestricts(r, b, "rue");
    case 'f' => WordRestricts(r, b, "alse");
    case 'n' => WordRestricts(r, b, "ull");
    case _ =>
      if Digit(a[0]) || a[0] == '-' {
        NumberRestricts(r, b);
      }
  }

  lemma CommentRestricts(a: string, b: string)
    requires b != "" && |ScanComment(a + b).rest| >= |b|
    ensures ScanComment(a) == Scan(ScanComment(a + b).ok, Shorter(ScanComment(a + b).rest, |b|))
  {
    hide Suffix, ScanCStyle, SkipLine;
    CommentShortens(a + b);
    if a != "" {
      var r := a[1..];
      assert (a + b)[1..] == r + b;
      if a[0] == '*' {
        FailedCommentsEnd(r + b);
        CStyleRestricts(r, b);
      } else if a[0] == '/' {
        LineRestricts(r, b);
      } else {
        assert Shorter(r + b, |b|) == r;
      }
    }
  }

  lemma CommentShortens(r: string)
    ensures r != "" ==> |ScanComment(r).rest| < |r|
  {
    hide ScanCStyle, SkipLine;
  }

  lemma PrefixExtends(pattern: string, a: string, b: string)
    ensures pattern <= a ==> pattern <= a + b
  {
  }

  lemma WordRestricts(a: string, b: string, pattern: string)
    requires |ScanWord(a + b, pattern).rest| >= |b|
    ensures ScanWord(a, pattern) == Scan(ScanWord(a + b, pattern).ok, Shorter(ScanWord(a + b, pattern).rest, |b|))
  {
    if pattern <= a + b {
      assert (a + b)[..|pattern|] == a[..|pattern|];
      assert Shorter((a + b)[|pattern|..], |b|) == a[|pattern|..];
    } else {
      PrefixExtends(pattern, a, b);
      assert Shorter(a + b, |b|) == a;
    }
  }

  lemma MadeTokenRestricts(s: string, c: Cut, b: string)
    requires |c.rest| >= |b| && Suffix(c.rest, s + b)
    ensures Suffix(Shorter(c.rest, |b|), s)
    ensures MakeToken(s, Cut(c.kind, Shorter(c.rest, |b|))) == MakeToken(s + b, c).(rest := Shorter(c.rest, |b|))
  {
    var k := |s + b| - |c.rest|;
    assert (s + b)[k..][..|c.rest| - |b|] == s[k..];
    assert (s + b)[..k] == s[..k];
  }

  lemma ReadTokenIs(r: string)
    ensures SkipSpaces(r) == "" ==> ReadToken(r) == Token(EndOfStream, "", "")
    ensures SkipSpaces(r) != "" ==>
              ReadToken(r).kind == CutToken(SkipSpaces(r)).kind && ReadToken(r).rest == CutToken(SkipSpaces(r)).rest &&
              |ReadToken(r).rest| < |SkipSpaces(r)| && ReadToken(r) == MakeToken(SkipSpaces(r), CutToken(SkipSpaces(r)))
  {
    hide CutToken, SkipSpaces, Suffix;
  }

  lemma FirstRestricts(a: string, b: string)
    requires b != "" && |ReadToken(a + b).rest| >= |b|
    ensures SkipSpaces(a) != "" && SkipSpaces(a + b) == SkipSpaces(a) + b
    ensures CutToken(SkipSpaces(a)) ==
              Cut(CutToken(SkipSpaces(a + b)).kind, Shorter(CutToken(SkipSpaces(a + b)).rest, |b|))
  {
    hide CutToken, ReadToken, SkipSpaces, Suffix;
    ReadTokenIs(a + b);
    SpacesRestrict(a, b);
    SpacesExtend(a, b);
    CutRestricts(SkipSpaces(a), b);
  }

  /** A token that ends inside `a` is read alike when the text stops behind `a`. */
  lemma TokenRestricts(a: string, b: string)
    requires |ReadToken(a + b).rest| >= |b|
    ensures ReadToken(a) == ReadToken(a + b).(rest := Shorter(ReadToken(a + b).rest, |b|))
  {
    hide CutToken, ReadToken, MakeToken, Suffix, SkipSpaces;
    if b == "" {
      assert a + b == a;
    } else {
      FirstRestricts(a, b);
      ReadTokenIs(a);
      ReadTokenIs(a + b);
      MadeTokenRestricts(SkipSpaces(a), CutToken(SkipSpaces(a + b)), b);
    }
  }

  // ----- where tokens stand -----

  /** Where a token stands: behind blanks, and with the rest behind it. */
  lemma Stands(d: string, t: Token)
    requires t == ReadToken(d) && t.text != ""
    ensures var e := |d| - |t.rest|;
            |t.text| <= e && d[e..] == t.rest && d[e - |t.text|..e] == t.text &&
            forall i :: 0 <= i < e - |t.text| ==> Space(d[i])
  {
    BlanksBefore(d);
    hide CutToken, SkipSpaces;
    assert SkipSpaces(d) == t.text + t.rest;
  }

  lemma SkipSpacesStep(r: string)
    ensures SkipSpaces(r) == if r != "" && Space(r[0]) then SkipSpaces(r[1..]) else r
  {
    hide Space, Suffix;
  }

  lemma {:induction false} BlanksBefore(d: string)
    ensures var s := SkipSpaces(d);
            |s| <= |d| && d[|d| - |s|..] == s && forall i :: 0 <= i < |d| - |s| ==> Space(d[i])
    decreases |d|
  {
    hide Space, SkipSpaces, Suffix;
    SkipSpacesStep(d);
    if d != "" && Space(d[0]) {
      BlanksBefore(d[1..]);
      var s := SkipSpaces(d);
      forall i | 0 <= i < |d| - |s| ensures Space(d[i]) {
        assert i > 0 ==> d[i] == d[1..][i - 1];
      }
    }
  }

  ghost predicate FreeOf(ls: seq<Lexeme>, x: char) {
    forall i :: 0 <= i < |ls| ==> x !in ls[i].text
  }

  lemma FreeOfCons(l: Lexeme, ls: seq<Lexeme>, x: char)
    ensures FreeOf([l] + ls, x) <==> x !in l.text && FreeOf(ls, x)
  {
    assert ([l] + ls)[0] == l && ([l] + ls)[1..] == ls;
  }

  /** A character that is no blank stands in a text only where it stands in a token. */
  lemma {:induction false} OnlyInTokens(d: string, x: char)
    requires !Space(x) && FreeOf(Lex(d), x)
    ensures x !in d
    decreases |d|
  {
    hide Lex, ReadToken, SkipSpaces, FreeOf;
    var t := ReadToken(d);
    LexUnfolds(d, t);
    if t.text == "" {
      BlanksBefore(d);
      assert SkipSpaces(d) == "" + "";
    } else {
      FreeOfCons(Lexeme(t.kind, t.text), Lex(t.rest), x);
      Stands(d, t);
      OnlyInTokens(t.rest, x);
      var e := |d| - |t.rest|;
      forall i | 0 <= i < |d| ensures d[i] != x {
        if i >= e {
          assert d[i] == t.rest[i - e];
        } else if i >= e - |t.text| {
          assert d[i] == t.text[i - (e - |t.text|)];
        }
      }
    }
  }
}
