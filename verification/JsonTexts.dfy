/** JSON texts, character by character, by the grammar of RFC 8259; and which of them are read. */
module JsonTexts {
  import opened Text
  import opened Strings
  import opened Tokens
  import opened Values
  import opened Parser
  import opened Streams
  import opened Grammar
  import opened Leniency
  import opened Characters
  import Layout
  import Numbers

  /** A value, without the blanks around it. */
  datatype Json =
    | Atom(kind: Kind, text: string)
    | EmptyArray(blank: string)
    | Array(items: Elements)
    | EmptyObject(blank: string)
    | Object(pairs: Pairs)

  datatype Elements = One(item: Padded) | Several(item: Padded, others: Elements)

  /** A value with blanks before and behind it. */
  datatype Padded = Padded(before: string, value: Json, after: string)

  datatype Pairs = OnePair(pair: Pair) | SeveralPairs(pair: Pair, others: Pairs)

  /** A name with blanks before and behind it, and a value. */
  datatype Pair = Pair(before: string, name: string, after: string, value: Padded)

  /** What the grammar asks of the parts. */
  predicate Valid(j: Json) {
    match j
    case Atom(kind, text) =>
      (kind.TrueWord? && text == "true") || (kind.FalseWord? && text == "false") ||
      (kind.NullWord? && text == "null") ||
      (kind.NumberLiteral? && JsonNumber(text)) || (kind.StringLiteral? && JsonString(text))
    case EmptyArray(blank) => AllBlank(blank)
    case Array(items) => ValidElements(items)
    case EmptyObject(blank) => AllBlank(blank)
    case Object(pairs) => ValidPairs(pairs)
  }

  predicate ValidPadded(p: Padded) {
    AllBlank(p.before) && Valid(p.value) && AllBlank(p.after)
  }

  predicate ValidElements(es: Elements) {
    ValidPadded(es.item) && (es.Several? ==> ValidElements(es.others))
  }

  predicate ValidPair(p: Pair) {
    AllBlank(p.before) && JsonString(p.name) && AllBlank(p.after) && ValidPadded(p.value)
  }

  predicate ValidPairs(ps: Pairs) {
    ValidPair(ps.pair) && (ps.SeveralPairs? ==> ValidPairs(ps.others))
  }

  // ----- the characters -----

  function Chars(j: Json): string {
    match j
    case Atom(_, text) => text
    case EmptyArray(blank) => "[" + blank + "]"
    case Array(items) => "[" + ElementChars(items) + "]"
    case EmptyObject(blank) => "{" + blank + "}"
    case Object(pairs) => "{" + PairChars(pairs) + "}"
  }

  function PaddedChars(p: Padded): string {
    p.before + Chars(p.value) + p.after
  }

  function ElementChars(es: Elements): string {
    match es
    case One(item) => PaddedChars(item)
    case Several(item, others) => PaddedChars(item) + "," + ElementChars(others)
  }

  function OnePairChars(p: Pair): string {
    p.before + p.name + p.after + ":" + PaddedChars(p.value)
  }

  function PairChars(ps: Pairs): string {
    match ps
    case OnePair(p) => OnePairChars(p)
    case SeveralPairs(p, others) => OnePairChars(p) + "," + PairChars(others)
  }

  // ----- the derivation -----

  function TreeOf(j: Json): Tree {
    match j
    case Atom(kind, text) => Leaf([], Lexeme(kind, text))
    case EmptyArray(_) => ArrayOf([], OPEN_ARRAY, NoItems(CLOSE_ARRAY))
    case Array(items) => ArrayOf([], OPEN_ARRAY, ItemsOf(items))
    case EmptyObject(_) => ObjectOf([], OPEN_OBJECT, NoMembers([], CLOSE_OBJECT))
    case Object(pairs) => ObjectOf([], OPEN_OBJECT, MembersOf(pairs))
  }

  function ItemsOf(es: Elements): Items {
    match es
    case One(item) => LastItem(TreeOf(item.value), [], CLOSE_ARRAY)
    case Several(item, others) => MoreItems(TreeOf(item.value), [], COMMA, ItemsOf(others))
  }

  function MemberOf(p: Pair): Member {
    Member([], Lexeme(StringLiteral, p.name), COLON, TreeOf(p.value.value))
  }

  function MembersOf(ps: Pairs): Members {
    match ps
    case OnePair(p) => LastMember(MemberOf(p), [], CLOSE_OBJECT)
    case SeveralPairs(p, others) => MoreMembers(MemberOf(p), [], COMMA, MembersOf(others))
  }

  // ----- the characters scan as the derivation's tokens -----

  lemma BlankScans(w: string)
    requires AllBlank(w)
    ensures Scans(w, []) && (w != "" ==> !NumberChar(w[0]) && !NumberChar(w[|w| - 1]))
  {
    forall c ensures c in BLANKS <==> Space(c) {
      BlankIsSpace(c);
    }
    Blank(w);
    hide Scans;
  }

  // Strings and numbers scan as one token.

  lemma {:induction false} JsonCharsScanned(b: string)
    requires JsonChars(b)
    ensures WellScanned(b)
    decreases |b|
  {
    JsonCharsUnfold(b);
    hide JsonChars;
    if b != "" {
      if b[0] == '\\' && b[1] == 'u' {
        JsonCharsScanned(b[6..]);
        FourScanned(b);
      } else if b[0] == '\\' {
        JsonCharsScanned(b[2..]);
      } else {
        JsonCharsScanned(b[1..]);
      }
    }
  }

  lemma FourScanned(b: string)
    requires |b| >= 6 && b[0] == '\\' && HexQuad(b[2..]).CodePoint? && WellScanned(b[6..])
    ensures WellScanned(b)
  {
    QuadMeans(b[2..]);
    hide HexQuad;
    assert WellScanned(b[5..]) by { assert b[5..][1..] == b[6..] && b[5..][0] == b[2..][3]; }
    assert WellScanned(b[4..]) by { assert b[4..][1..] == b[5..] && b[4..][0] == b[2..][2]; }
    assert WellScanned(b[3..]) by { assert b[3..][1..] == b[4..] && b[3..][0] == b[2..][1]; }
    assert WellScanned(b[2..]) by { assert b[2..][1..] == b[3..] && b[2..][0] == b[2..][0]; }
  }

  lemma JsonStringScans(text: string)
    requires JsonString(text)
    ensures Scans(text, [Lexeme(StringLiteral, text)]) && text != "" && text[0] == '"' && text[|text| - 1] == '"'
  {
    JsonCharsScanned(Body(text));
    hide JsonChars, WellScanned, Lex, Solid;
    StringTokens(Body(text), "");
    assert text == "\"" + Body(text) + "\"" + "";
    OneLexeme(text, StringLiteral);
  }

  lemma OneLexeme(text: string, kind: Kind)
    requires text != "" && SolidKind(kind) && ReadToken(text) == Token(kind, text, "")
    ensures Scans(text, [Lexeme(kind, text)])
  {
    hide ReadToken;
    LexUnfolds(text, ReadToken(text));
    NothingLeft();
  }

  lemma NothingLeft()
    ensures Lex("") == [] && Solid("")
  {
    LexUnfolds("", ReadToken(""));
    hide CutToken;
  }

  predicate AllNumberChars(s: string) {
    forall i :: 0 <= i < |s| ==> NumberChar(s[i])
  }

  lemma {:induction false} SkippedDigits(s: string)
    ensures AllNumberChars(s) <==> AllNumberChars(SkipDigits(s))
  {
    if s != "" && Digit(s[0]) {
      SkippedDigits(s[1..]);
      assert s == [s[0]] + s[1..];
    }
  }

  lemma JsonNumberChars(s: string)
    requires JsonNumber(s)
    ensures s != "" && (Digit(s[0]) || s[0] == '-') && AllNumberChars(s)
  {
    var digits := Numbers.DigitsOf(s);
    var s1 := SkipInteger(digits).value;
    var s2 := SkipFraction(s1).value;
    ExponentChars(s2);
    FractionChars(s1);
    IntegerChars(digits);
    hide AllNumberChars, SkipInteger, SkipFraction, SkipExponent;
    MinusChars(s);
  }

  lemma MinusChars(s: string)
    requires AllNumberChars(Numbers.DigitsOf(s))
    ensures AllNumberChars(s)
  {
    if s != "" && s[0] == '-' {
      assert s == [s[0]] + s[1..];
    }
  }

  lemma IntegerChars(s: string)
    requires SkipInteger(s).Some?
    ensures s != "" && Digit(s[0]) && (AllNumberChars(SkipInteger(s).value) ==> AllNumberChars(s))
  {
    SkippedDigits(s);
    assert s == [s[0]] + s[1..];
  }

  lemma FractionChars(s: string)
    requires SkipFraction(s).Some?
    ensures AllNumberChars(SkipFraction(s).value) ==> AllNumberChars(s)
  {
    if s != "" && s[0] == '.' {
      SkippedDigits(s[1..]);
      assert s == [s[0]] + s[1..];
    }
  }

  lemma ExponentChars(s: string)
    requires SkipExponent(s) == Some("")
    ensures AllNumberChars(s)
  {
    if s != "" && (s[0] == 'e' || s[0] == 'E') {
      var r := if |s| > 1 && (s[1] == '+' || s[1] == '-') then s[2..] else s[1..];
      SkippedDigits(r);
      assert s == [s[0]] + s[1..];
      assert |s| > 1 ==> s[1..] == [s[1]] + s[2..];
    }
  }

  lemma JsonNumberScans(text: string)
    requires JsonNumber(text)
    ensures Scans(text, [Lexeme(NumberLiteral, text)]) && text != ""
  {
    JsonNumberChars(text);
    hide JsonNumber, Lex, Solid, ReadToken;
    forall i | 0 <= i < |text| ensures text[i] in NUMBER_CHARACTERS {
      IsNumberChar(text[i]);
    }
    IsFirst(text[0]);
    NumberTokens(text, "");
    assert text + "" == text;
    OneLexeme(text, NumberLiteral);
  }

  lemma IsFirst(c: char)
    requires Digit(c) || c == '-'
    ensures c in "0123456789-"
  {
    IsNumberChar(c);
    var firsts := "0123456789-";
    assert firsts[..10] == NUMBER_CHARACTERS[..10] && firsts[10] == '-';
    if Digit(c) {
      assert c in firsts[..10];
    }
  }

  // ----- the characters of a value scan as its derivation's tokens -----

  predicate Closed(a: string) {
    a == "" || !NumberChar(a[|a| - 1])
  }

  predicate Opened(b: string) {
    b == "" || !NumberChar(b[0])
  }

  lemma Joined(a: string, b: string, ls: seq<Lexeme>, ms: seq<Lexeme>)
    requires Scans(a, ls) && Scans(b, ms) && (Closed(a) || Opened(b))
    ensures Scans(a + b, ls + ms)
  {
    hide Scans;
    Glue(a, b, ls, ms);
  }

  lemma Signs()
    ensures Scans("[", [OPEN_ARRAY]) && Scans("]", [CLOSE_ARRAY]) && Scans("{", [OPEN_OBJECT])
    ensures Scans("}", [CLOSE_OBJECT]) && Scans(",", [COMMA]) && Scans(":", [COLON])
    ensures Closed("[") && Closed("{") && Closed(",") && Closed(":") && Opened("]") && Opened("}") && Opened(",") &&
            Opened(":")
  {
    hide Scans;
    Punctuation("[");
    Punctuation("]");
    Punctuation("{");
    Punctuation("}");
    Punctuation(",");
    Punctuation(":");
  }

  lemma BlanksScan(w: string)
    requires AllBlank(w)
    ensures Scans(w, []) && Closed(w) && Opened(w)
  {
    BlankScans(w);
    hide Scans;
  }

  lemma {:induction false} ValueScans(j: Json)
    requires Valid(j)
    ensures Scans(Chars(j), Yield(TreeOf(j)))
    decreases j
  {
    hide Scans, JsonNumber, JsonString, AllBlank, ElementChars, PairChars, ValidElements, ValidPairs;
    hide ItemsOf, MembersOf, ItemsYield, MembersYield;
    Signs();
    match j
    case Atom(kind, text) =>
      Words();
      if kind.NumberLiteral? {
        JsonNumberScans(text);
      } else if kind.StringLiteral? {
        JsonStringScans(text);
      }
      assert Yield(TreeOf(j)) == [Lexeme(kind, text)];
    case EmptyArray(blank) =>
      Bracket("[", blank, "]", OPEN_ARRAY, CLOSE_ARRAY);
      NoneYield();
      assert Yield(TreeOf(j)) == [OPEN_ARRAY] + [CLOSE_ARRAY];
    case EmptyObject(blank) =>
      Bracket("{", blank, "}", OPEN_OBJECT, CLOSE_OBJECT);
      NoneYield();
      assert Yield(TreeOf(j)) == [OPEN_OBJECT] + [CLOSE_OBJECT];
    case Array(items) =>
      ElementsScan(items);
      Joined("[", ElementChars(items) + "]", [OPEN_ARRAY], ItemsYield(ItemsOf(items)));
      assert "[" + (ElementChars(items) + "]") == Chars(j);
      assert Yield(TreeOf(j)) == [OPEN_ARRAY] + ItemsYield(ItemsOf(items));
    case Object(pairs) =>
      PairsScan(pairs);
      Joined("{", PairChars(pairs) + "}", [OPEN_OBJECT], MembersYield(MembersOf(pairs)));
      assert "{" + (PairChars(pairs) + "}") == Chars(j);
      assert Yield(TreeOf(j)) == [OPEN_OBJECT] + MembersYield(MembersOf(pairs));
  }

  lemma NoneYield()
    ensures ItemsYield(NoItems(CLOSE_ARRAY)) == [CLOSE_ARRAY]
    ensures MembersYield(NoMembers([], CLOSE_OBJECT)) == [CLOSE_OBJECT]
  {
  }

  lemma Bracket(open: string, blank: string, close: string, l: Lexeme, m: Lexeme)
    requires Scans(open, [l]) && Scans(close, [m]) && AllBlank(blank) && Closed(open) && Opened(close)
    ensures Scans(open + blank + close, [l] + [m])
  {
    hide Scans, AllBlank;
    BlanksScan(blank);
    Joined(open, blank, [l], []);
    assert [l] + [] == [l];
    Joined(open + blank, close, [l], [m]);
  }

  /** A padded value, and a sign behind it. */
  lemma {:induction false} PaddedScans(p: Padded, sign: string, l: Lexeme)
    requires ValidPadded(p) && Scans(sign, [l]) && Opened(sign)
    ensures Scans(PaddedChars(p) + sign, Yield(TreeOf(p.value)) + [l])
    decreases p
  {
    hide Scans, AllBlank, Valid, Yield, TreeOf;
    ValueScans(p.value);
    BlanksScan(p.before);
    BlanksScan(p.after);
    var ls := Yield(TreeOf(p.value));
    Joined(p.before, Chars(p.value), [], ls);
    assert [] + ls == ls && ls + [] == ls;
    Joined(p.before + Chars(p.value), p.after, ls, []);
    Joined(PaddedChars(p), sign, ls, [l]);
  }

  lemma {:induction false} ElementsScan(es: Elements)
    requires ValidElements(es)
    ensures Scans(ElementChars(es) + "]", ItemsYield(ItemsOf(es)))
    decreases es
  {
    hide Scans, Valid, AllBlank, Yield, TreeOf, PaddedChars, ValidPadded;
    Signs();
    var ls := Yield(TreeOf(es.item.value));
    if es.One? {
      PaddedScans(es.item, "]", CLOSE_ARRAY);
      assert ls + [] + [CLOSE_ARRAY] == ls + [CLOSE_ARRAY];
    } else {
      PaddedScans(es.item, ",", COMMA);
      ElementsScan(es.others);
      Joined(PaddedChars(es.item) + ",", ElementChars(es.others) + "]", ls + [COMMA], ItemsYield(ItemsOf(es.others)));
      assert PaddedChars(es.item) + "," + (ElementChars(es.others) + "]") == ElementChars(es) + "]";
      assert ls + [] + [COMMA] + ItemsYield(ItemsOf(es.others)) == ls + [COMMA] + ItemsYield(ItemsOf(es.others));
    }
  }

  /** A name and its colon. */
  lemma NameScans(p: Pair)
    requires ValidPair(p)
    ensures Scans(p.before + p.name + p.after + ":", [Lexeme(StringLiteral, p.name)] + [COLON])
  {
    hide Scans, AllBlank, ValidPadded, JsonString;
    Signs();
    BlanksScan(p.before);
    BlanksScan(p.after);
    JsonStringScans(p.name);
    var l := Lexeme(StringLiteral, p.name);
    Joined(p.before, p.name, [], [l]);
    assert [] + [l] == [l] && [l] + [] == [l];
    Joined(p.before + p.name, p.after, [l], []);
    Joined(p.before + p.name + p.after, ":", [l], [COLON]);
  }

  lemma {:induction false} PairScans(p: Pair, sign: string, l: Lexeme)
    requires ValidPair(p) && Scans(sign, [l]) && Opened(sign)
    ensures Scans(OnePairChars(p) + sign, MemberYield(MemberOf(p)) + [l])
    decreases p
  {
    hide *;
    PairParts(p, sign, l);
    NameScans(p);
    PaddedScans(p.value, sign, l);
    ColonCloses(p.before + p.name + p.after);
    Joined(p.before + p.name + p.after + ":", PaddedChars(p.value) + sign, [Lexeme(StringLiteral, p.name)] + [COLON],
           Yield(TreeOf(p.value.value)) + [l]);
  }

  lemma PairParts(p: Pair, sign: string, l: Lexeme)
    ensures ValidPair(p) ==> ValidPadded(p.value)
    ensures p.before + p.name + p.after + ":" + (PaddedChars(p.value) + sign) == OnePairChars(p) + sign
    ensures [Lexeme(StringLiteral, p.name)] + [COLON] + (Yield(TreeOf(p.value.value)) + [l]) ==
              MemberYield(MemberOf(p)) + [l]
  {
    hide PaddedChars, Yield, TreeOf, ValidPadded, JsonString, AllBlank;
  }

  lemma ColonCloses(s: string)
    ensures Closed(s + ":")
  {
  }

  lemma {:induction false} PairsScan(ps: Pairs)
    requires ValidPairs(ps)
    ensures Scans(PairChars(ps) + "}", MembersYield(MembersOf(ps)))
    decreases ps
  {
    hide Scans, ValidPair, MemberYield, OnePairChars, MemberOf;
    Signs();
    var ls := MemberYield(MemberOf(ps.pair));
    if ps.OnePair? {
      PairScans(ps.pair, "}", CLOSE_OBJECT);
      assert ls + [] + [CLOSE_OBJECT] == ls + [CLOSE_OBJECT];
    } else {
      PairScans(ps.pair, ",", COMMA);
      PairsScan(ps.others);
      CommaCloses(OnePairChars(ps.pair));
      Joined(OnePairChars(ps.pair) + ",", PairChars(ps.others) + "}", ls + [COMMA], MembersYield(MembersOf(ps.others)));
      assert OnePairChars(ps.pair) + "," + (PairChars(ps.others) + "}") == PairChars(ps) + "}";
      assert ls + [] + [COMMA] + MembersYield(MembersOf(ps.others)) ==
               ls + [COMMA] + MembersYield(MembersOf(ps.others));
    }
  }

  lemma CommaCloses(s: string)
    ensures Closed(s + ",")
  {
  }

  lemma {:induction false} IsJsonTree(j: Json)
    requires Valid(j)
    ensures JsonTree(TreeOf(j))
    decreases j
  {
    hide JsonNumber, JsonString, AllBlank, ItemsOf, MembersOf, JsonItems, JsonMembers, ValidElements, ValidPairs;
    match j
    case Array(items) => AreJsonItems(items);
    case Object(pairs) =>
      AreJsonMembers(pairs);
      NotEmpty(pairs);
    case _ => NoJsonItems();
  }

  lemma NoJsonItems()
    ensures JsonItems(NoItems(CLOSE_ARRAY))
  {
  }

  lemma NotEmpty(ps: Pairs)
    ensures !MembersOf(ps).NoMembers?
  {
  }

  lemma {:induction false} AreJsonItems(es: Elements)
    requires ValidElements(es)
    ensures JsonItems(ItemsOf(es)) && !ItemsOf(es).NoItems?
    decreases es
  {
    hide JsonTree, TreeOf, Valid, AllBlank;
    IsJsonTree(es.item.value);
    if es.Several? {
      AreJsonItems(es.others);
    }
  }

  lemma {:induction false} AreJsonMembers(ps: Pairs)
    requires ValidPairs(ps)
    ensures JsonMembers(MembersOf(ps))
    decreases ps
  {
    hide JsonTree, TreeOf, Valid, AllBlank, JsonString;
    assert ValidPair(ps.pair) && ValidPadded(ps.pair.value);
    IsJsonTree(ps.pair.value.value);
    if ps.SeveralPairs? {
      AreJsonMembers(ps.others);
    }
  }

  /**
   * A JSON value, spelled with whatever blanks, and with whatever behind it that does not make a
   * number longer, is read if and only if in all its strings high surrogates are paired and all its
   * numbers are 64-bit integers or numbers the C library reads.
   */
  lemma JsonTextReadIff(c: Config, n: int, before: string, j: Json, tail: string, node: Value)
    requires AllBlank(before) && Valid(j) && (tail == "" || tail[0] !in NUMBER_CHARACTERS)
    ensures var r := before + Chars(j) + tail;
            var o := ReadValue(c, n, r, node);
            BeginsWithJson(r) && (o.ok <==> Readable(c, TreeOf(j))) &&
            (o.ok ==> ValidTree(c, TreeOf(j)) && Strip(o.node) == Meaning(c, TreeOf(j)) && Lex(o.rest) == Lex(tail))
  {
    hide *;
    var t := TreeOf(j);
    BlanksScan(before);
    ValueScans(j);
    Joined(before, Chars(j), [], Yield(t));
    assert [] + Yield(t) == Yield(t);
    Unpack(before + Chars(j), Yield(t));
    if tail != "" {
      IsNumberChar(tail[0]);
    }
    NoLonger(before + Chars(j), tail);
    LexAppend(before + Chars(j), tail);
    IsJsonTree(j);
    var r := before + Chars(j) + tail;
    PrefixIs(r, t, Lex(tail));
    JsonReadIff(c, n, r, node, t, Lex(tail));
  }

  lemma NoLonger(a: string, tail: string)
    requires tail == "" || !NumberChar(tail[0])
    ensures Joins(a, tail)
  {
  }

  lemma PrefixIs(r: string, t: Tree, rest: seq<Lexeme>)
    requires JsonTree(t) && Lex(r) == Yield(t) + rest
    ensures JsonPrefix(Lex(r), t, rest) && BeginsWithJson(r)
  {
    hide JsonTree, Yield, Lex;
    assert JsonPrefix(Lex(r), t, rest);
  }

  /** A JSON text - blanks, a value and blanks - is parsed if and only if its value is read. */
  lemma JsonDocumentReadIff(c: Config, before: string, j: Json, after: string, root: Value)
    requires AllBlank(before) && Valid(j) && AllBlank(after) && !c.strictRoot
    ensures var o := Parse(c, before + Chars(j) + after, root);
            (o.ok <==> Readable(c, TreeOf(j))) &&
            (o.ok ==> ValidTree(c, TreeOf(j)) && Strip(o.node) == Meaning(c, TreeOf(j)))
  {
    hide *;
    var doc := before + Chars(j) + after;
    BlanksNoNumber(after);
    JsonTextReadIff(c, |doc|, before, j, after, root);
    ParseUnfolds(c, doc, root);
  }

  lemma BlanksNoNumber(w: string)
    requires AllBlank(w)
    ensures w == "" || w[0] !in NUMBER_CHARACTERS
  {
    BlankScans(w);
    hide Scans;
    if w != "" {
      IsNumberChar(w[0]);
    }
  }

  // ----- what the writers print is JSON -----

  lemma {:induction false} NoLeadingZero(n: nat)
    ensures n > 0 ==> Numbers.Numeral(n)[0] != '0'
  {
    if n >= 10 {
      NoLeadingZero(n / 10);
    }
  }

  lemma NumeralIsJson(i: int)
    requires -Numbers.TWO_63 <= i < Numbers.TWO_64
    ensures JsonNumber(Numbers.IntText(i))
  {
    Numbers.DecodesIntText(i);
    var text := Numbers.IntText(i);
    NoLeadingZero(if i < 0 then -i else i);
    if i < 0 {
      assert Numbers.DigitsOf(text) == Numbers.Numeral(-i);
    }
    hide JsonNumber;
    LenientIntegers(text);
  }

  lemma EscapeIsJson(c: char, rest: string)
    requires c != NUL && JsonChars(rest)
    ensures JsonChars(Escape(c) + rest)
  {
    var b := Escape(c) + rest;
    JsonCharsUnfold(b);
    hide JsonChars;
    assert |Escape(c)| == 1 ==> b[1..] == rest;
    assert |Escape(c)| == 2 ==> b[2..] == rest;
    assert |Escape(c)| == 6 ==> b[6..] == rest;
  }

  lemma {:induction false} EscapesAreJson(s: string)
    requires NulFree(s)
    ensures JsonChars(Escapes(s))
  {
    hide JsonChars, Escape;
    if s == "" {
      JsonCharsUnfold("");
    } else {
      EscapesAreJson(s[1..]);
      EscapeIsJson(s[0], Escapes(s[1..]));
    }
  }

  lemma QuoteIsJson(s: string)
    requires NulFree(s)
    ensures JsonString(Quote(s))
  {
    EscapesAreJson(s);
    hide JsonChars, Escapes;
    assert Body(Quote(s)) == Escapes(s);
  }

  lemma ScalarIsJson(v: Value)
    requires Printable(v) && !v.data.Arr? && !v.data.Obj?
    ensures LeafKind(ScalarToken(v.data).kind) && JsonToken(ScalarToken(v.data))
  {
    match v.data
    case Int(i) => NumeralIsJson(i as int);
    case UInt(u) => NumeralIsJson(u as int);
    case Str(s) => QuoteIsJson(s);
    case _ =>
    hide JsonNumber, JsonString, Quote, Numbers.IntText;
  }

  /** The derivation of what is printed for a value. */
  function TreeFor(v: Value): Tree
    decreases Weight(v), 0, 0
  {
    match v.data
    case Arr(es) => ArrayOf([], OPEN_ARRAY, if Size(es) == 0 then NoItems(CLOSE_ARRAY) else ItemsFor(es, 0))
    case Obj(es) => ObjectOf([], OPEN_OBJECT, if es.Nil? then NoMembers([], CLOSE_OBJECT) else MembersFor(es))
    case _ => Leaf([], ScalarToken(v.data))
  }

  function ItemsFor(es: Entries, index: nat): Items
    requires index < Size(es)
    decreases WeightOf(es), 1, Size(es) - index
  {
    GetWeight(es, Idx(index));
    var item := TreeFor(At(es, index));
    if index + 1 == Size(es) then LastItem(item, [], CLOSE_ARRAY)
    else MoreItems(item, [], COMMA, ItemsFor(es, index + 1))
  }

  function MembersFor(es: Entries): Members
    requires es.Cons?
    decreases WeightOf(es), 1, 0
  {
    var m := Member([], Lexeme(StringLiteral, Quote(Layout.NameText(es.key))), COLON, TreeFor(es.val));
    if es.rest.Nil? then LastMember(m, [], CLOSE_OBJECT) else MoreMembers(m, [], COMMA, MembersFor(es.rest))
  }

  lemma {:induction false} TokensAreJson(v: Value)
    requires Printable(v)
    ensures JsonTree(TreeFor(v)) && Yield(TreeFor(v)) == TokensOf(v)
    decreases Weight(v), 0, 0
  {
    hide ItemsFor, MembersFor, JsonItems, JsonMembers, ItemsYield, MembersYield, TokensOf, ItemTokens, MemberTokens;
    hide Size, JsonToken, ScalarToken;
    match v.data
    case Arr(es) =>
      ArrayTokens(v);
      if Size(es) == 0 {
        NoneYield();
        NoJsonItems();
      } else {
        ItemsAreJson(es, 0);
      }
    case Obj(es) =>
      ObjectTokens(v);
      if es.Nil? {
        NoneYield();
      } else {
        MembersAreJson(es);
      }
    case _ =>
      ScalarIsJson(v);
      ScalarTokens(v);
  }

  lemma ScalarTokens(v: Value)
    requires !v.data.Arr? && !v.data.Obj?
    ensures TokensOf(v) == [ScalarToken(v.data)]
  {
    hide ScalarToken;
  }

  lemma {:induction false} ItemsAreJson(es: Entries, index: nat)
    requires PrintableOf(es) && index < Size(es)
    ensures JsonItems(ItemsFor(es, index)) && !ItemsFor(es, index).NoItems?
    ensures ItemsYield(ItemsFor(es, index)) == ItemTokens(es, index) + [CLOSE_ARRAY]
    decreases WeightOf(es), 1, Size(es) - index
  {
    hide JsonTree, TreeFor, TokensOf, ItemTokens, Yield, Size, Get;
    GetWeight(es, Idx(index));
    GetPrintable(es, Idx(index));
    ItemTokensStep(es, index);
    TokensAreJson(At(es, index));
    if index + 1 < Size(es) {
      ItemsAreJson(es, index + 1);
    }
  }

  lemma {:induction false} MembersAreJson(es: Entries)
    requires PrintableOf(es) && es.Cons? && Sort(es, false)
    ensures JsonMembers(MembersFor(es)) && !MembersFor(es).NoMembers?
    ensures MembersYield(MembersFor(es)) == MemberTokens(es) + [CLOSE_OBJECT]
    decreases WeightOf(es), 1, 0
  {
    hide JsonTree, TreeFor, TokensOf, MemberTokens, Yield, Quote, JsonString;
    MemberTokensStep(es);
    QuoteIsJson(Layout.NameText(es.key));
    TokensAreJson(es.val);
    if es.rest.Cons? {
      MembersAreJson(es.rest);
    }
  }

  /** Both writers print JSON, whatever the value and the layout, and nothing behind it. */
  lemma PrintedIsJson(p: Layout.Printer, f: Layout.FastStyle, v: Value)
    requires Printable(v) && !f.dropNulls
    ensures JsonPrefix(Lex(Layout.StyledText(p, v)), TreeFor(v), [])
    ensures JsonPrefix(Lex(Layout.FastText(f, v)), TreeFor(v), [])
  {
    hide *;
    TokensAreJson(v);
    StyledTextScans(p, v);
    FastTextScans(f, v);
    Unpack(Layout.StyledText(p, v), TokensOf(v));
    Unpack(Layout.FastText(f, v), TokensOf(v));
    assert TokensOf(v) + [] == TokensOf(v);
    PrefixIs(Layout.StyledText(p, v), TreeFor(v), []);
    PrefixIs(Layout.FastText(f, v), TreeFor(v), []);
  }
}
