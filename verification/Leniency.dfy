/** Where the reader is more lenient than RFC 8259, and exactly when. */
module Leniency {
  import opened Text
  import opened Numbers
  import opened Strings
  import opened Spellings
  import opened Tokens
  import opened Values
  import opened Parser
  import opened Streams
  import opened Grammar

  // ----- numbers: section 6 of RFC 8259 -----

  function SkipDigits(s: string): (r: string)
    ensures |r| <= |s|
  {
    if s != "" && Digit(s[0]) then SkipDigits(s[1..]) else s
  }

  /** int = zero / ( digit1-9 *DIGIT ) */
  function SkipInteger(s: string): Option<string> {
    if s == "" || !Digit(s[0]) then None else if s[0] == '0' then Some(s[1..]) else Some(SkipDigits(s))
  }

  /** frac = decimal-point 1*DIGIT, if there is one. */
  function SkipFraction(s: string): Option<string> {
    if s == "" || s[0] != '.' then Some(s)
    else if |s| > 1 && Digit(s[1]) then Some(SkipDigits(s[1..]))
    else None
  }

  /** exp = e [ minus / plus ] 1*DIGIT, if there is one. */
  function SkipExponent(s: string): Option<string> {
    if s == "" || (s[0] != 'e' && s[0] != 'E') then Some(s)
    else
      var r := if |s| > 1 && (s[1] == '+' || s[1] == '-') then s[2..] else s[1..];
      if r != "" && Digit(r[0]) then Some(SkipDigits(r)) else None
  }

  /** number = [ minus ] int [ frac ] [ exp ] */
  predicate JsonNumber(s: string) {
    match SkipInteger(DigitsOf(s))
    case None => false
    case Some(s1) =>
      match SkipFraction(s1)
      case None => false
      case Some(s2) => SkipExponent(s2) == Some("")
  }

  lemma {:induction false} AllSkipped(s: string)
    requires OnlyDigits(s)
    ensures SkipDigits(s) == ""
  {
    if s != "" {
      AllSkipped(s[1..]);
    }
  }

  /** Among the tokens read as integers, those that are no JSON numbers are the lone minus sign and leading zeros. */
  lemma LenientIntegers(text: string)
    requires NumberToken(text) && Integral(text)
    ensures JsonNumber(text) <==> text != "-" && (|DigitsOf(text)| == 1 || DigitsOf(text)[0] != '0')
  {
    var digits := DigitsOf(text);
    if digits != "" {
      AllSkipped(digits);
      if digits[0] == '0' {
        AllSkipped(digits[1..]);
        if |digits| > 1 {
          assert Digit(digits[1..][0]);
        }
      }
    } else {
      assert text == "-";
    }
    if text == "-" {
      assert digits == "";
    }
  }

  /** A lone minus sign is the only integer token without a digit, and it is read as 0. */
  lemma LoneMinus(c: Config, text: string, root: Value)
    requires NumberToken(text) && Integral(text)
    ensures DigitsOf(text) == "" <==> text == "-"
    ensures text == "-" ==> NumberOf(text) == Signed(0)
    ensures text == "-" && !c.strictRoot ==> Parse(c, text, root).ok && Parse(c, text, root).node.data == Int(0)
  {
    if DigitsOf(text) == "" {
      assert text == "-";
    }
    hide NumberToken, Integral, Parse, NumberOf;
    if text == "-" {
      MinusIsZero(text);
      if !c.strictRoot {
        MinusRead(c, text, root);
      }
    }
  }

  lemma MinusRead(c: Config, text: string, root: Value)
    requires text == "-" && !c.strictRoot
    ensures Parse(c, text, root).ok && Parse(c, text, root).node.data == Int(0)
  {
    hide *;
    MinusToken(text);
    MinusScalar(c, Token(NumberLiteral, text, ""));
    SignificantIs(c, text);
    ReadsScalar(c, |text|, text, root);
    ParseUnfolds(c, text, root);
  }

  lemma SignificantIs(c: Config, r: string)
    ensures !ReadToken(r).kind.Comment? ==> Significant(c, r) == ReadToken(r)
  {
    SkipUnfolds(r);
    hide ReadToken, SkipComments;
  }

  lemma ParseUnfolds(c: Config, doc: string, root: Value)
    requires !c.strictRoot
    ensures Parse(c, doc, root).ok == ReadValue(c, |doc|, doc, root).ok &&
            Parse(c, doc, root).node == ReadValue(c, |doc|, doc, root).node
  {
    hide ReadValue, Significant;
  }

  lemma MinusScalar(c: Config, t: Token)
    requires t.kind.NumberLiteral? && t.text == "-"
    ensures ScalarOf(c, t) == Good(Int(0))
  {
    MinusIsZero(t.text);
    hide NumberOf;
  }

  lemma MinusIsZero(text: string)
    requires text == "-"
    ensures NumberOf(text) == Signed(0)
  {
    assert text[1..] == "";
  }

  lemma MinusToken(text: string)
    requires text == "-"
    ensures ReadToken(text) == Token(NumberLiteral, text, "")
  {
    assert text[1..] == "" && SkipNumber("") == "" && SkipSpaces(text) == text;
    assert CutToken(text) == Cut(NumberLiteral, "");
  }

  // ----- strings: section 7 of RFC 8259 -----

  /** *char, where char = unescaped / an escape. */
  predicate JsonChars(b: string)
    decreases |b|
  {
    b == "" ||
    (if b[0] == '\\' then
       |b| >= 2 &&
       (if b[1] == 'u' then FourDigits(b[2..]) && JsonChars(b[6..])
        else b[1] in "\"\\/bfnrt" && JsonChars(b[2..]))
     else b[0] != '"' && b[0] >= ' ' && JsonChars(b[1..]))
  }

  /** 4HEXDIG, of either case. */
  predicate FourDigits(b: string) {
    |b| >= 4 && forall i :: 0 <= i < 4 ==> b[i] in "0123456789abcdefABCDEF"
  }

  lemma IsHexDigit(c: char)
    ensures c in "0123456789abcdefABCDEF" <==> HexDigit(c)
  {
    var digits := "0123456789abcdefABCDEF";
    assert digits == LOWER + UPPER[10..];
    if HexDigit(c) {
      var d, upper := DigitIsInTable(c);
      TableParts(d, upper, digits);
    }
    if c in digits {
      var i :| 0 <= i < |digits| && digits[i] == c;
      DigitValues(if i < 16 then i else i - 6, i >= 16);
    }
  }

  lemma TableParts(d: nat, upper: bool, digits: string)
    requires d < 16 && digits == LOWER + UPPER[10..]
    ensures HexDigitOf(d, upper) in digits
  {
    if d < 10 {
      DigitsBelowTen(d);
      assert digits[d] == LOWER[d];
    } else if upper {
      assert digits[d + 6] == UPPER[d];
    } else {
      assert digits[d] == LOWER[d];
    }
  }

  lemma IsFourDigits(b: string)
    ensures FourDigits(b) <==> HexQuad(b).CodePoint?
  {
    hide *;
    QuadMeans(b);
    FourMeans(b, "0123456789abcdefABCDEF");
    if |b| >= 4 {
      IsHexDigit(b[0]);
      IsHexDigit(b[1]);
      IsHexDigit(b[2]);
      IsHexDigit(b[3]);
    }
  }

  lemma QuadMeans(b: string)
    ensures HexQuad(b).CodePoint? <==> |b| >= 4 && HexDigit(b[0]) && HexDigit(b[1]) && HexDigit(b[2]) && HexDigit(b[3])
  {
    hide HexDigit, HexDigitValue;
  }

  lemma FourMeans(b: string, digits: string)
    requires digits == "0123456789abcdefABCDEF"
    ensures FourDigits(b) <==>
              |b| >= 4 && b[0] in digits && b[1] in digits && b[2] in digits && b[3] in digits
  {
  }

  lemma IsLetter(c: char)
    ensures c in "\"\\/bfnrt" <==> SimpleEscape(c).Some?
  {
    assert "\"\\/bfnrt" == ['"', '\\', '/', 'b', 'f', 'n', 'r', 't'];
  }

  /** In the terms of the decoder. */
  lemma JsonCharsUnfold(b: string)
    ensures JsonChars(b) <==>
              b == "" ||
              (if b[0] == '\\' then
                 |b| >= 2 &&
                 (if b[1] == 'u' then HexQuad(b[2..]).CodePoint? && JsonChars(b[6..])
                  else SimpleEscape(b[1]).Some? && JsonChars(b[2..]))
               else b[0] != '"' && b[0] >= ' ' && JsonChars(b[1..]))
  {
    if |b| >= 2 && b[0] == '\\' {
      IsFourDigits(b[2..]);
      IsLetter(b[1]);
    }
    hide HexQuad, FourDigits, SimpleEscape;
  }

  predicate JsonString(text: string) {
    |text| >= 2 && text[0] == '"' && text[|text| - 1] == '"' && JsonChars(Body(text))
  }

  predicate Printed(b: string) {
    forall i :: 0 <= i < |b| ==> b[i] >= ' '
  }

  lemma PrintedParts(b: string, k: nat)
    requires k <= |b|
    ensures Printed(b) <==> Printed(b[..k]) && Printed(b[k..])
  {
    if Printed(b[..k]) && Printed(b[k..]) {
      forall i | 0 <= i < |b| ensures b[i] >= ' ' {
        assert i >= k ==> b[i] == b[k..][i - k];
        assert i < k ==> b[i] == b[..k][i];
      }
    }
  }

  lemma HexPrinted(b: string)
    requires HexQuad(b).CodePoint?
    ensures Printed(b[..4])
  {
  }

  lemma {:induction false} LenientChars(b: string)
    requires WellScanned(b) && DecodeChars(b).Decoded?
    ensures JsonChars(b) <==> Printed(b)
    decreases |b|
  {
    hide JsonChars;
    JsonCharsUnfold(b);
    if b != "" {
      if b[0] == '\\' && b[1] == 'u' {
        LenientUnicode(b);
      } else if b[0] == '\\' {
        PrintedParts(b, 2);
        LenientChars(b[2..]);
      } else {
        PrintedParts(b, 1);
        LenientChars(b[1..]);
      }
    }
  }

  lemma {:induction false} LenientUnicode(b: string)
    requires WellScanned(b) && DecodeChars(b).Decoded? && |b| >= 2 && b[0] == '\\' && b[1] == 'u'
    ensures JsonChars(b) <==> Printed(b)
    decreases |b|, 0
  {
    hide JsonChars, HexQuad;
    JsonCharsUnfold(b);
    PrintedParts(b, 2);
    SkipsCodePoint(b[2..]);
    var first := HexQuad(b[2..]);
    HexPrinted(b[2..]);
    PrintedParts(b[2..], 4);
    assert b[2..][4..] == b[6..];
    var rest := UnicodeCodePoint(b[2..]).rest;
    if 0xD800 <= first.value <= 0xDBFF {
      var r := b[6..];
      assert r[2..] == b[8..] && r[6..] == b[12..] && r[2..][4..] == b[12..];
      HexPrinted(r[2..]);
      JsonCharsUnfold(r);
      PrintedParts(r, 2);
      PrintedParts(r[2..], 4);
      LenientChars(rest);
      hide WellScanned, DecodeChars;
    } else {
      LenientChars(rest);
      hide WellScanned, DecodeChars;
    }
  }

  /** Among the string tokens that decode, those that are no JSON strings are those with a raw control character. */
  lemma LenientStrings(text: string)
    requires StringToken(text) && DecodeString(text).Decoded?
    ensures JsonString(text) <==> Printed(text)
  {
    LenientChars(Body(text));
    PrintedParts(text, 1);
    PrintedParts(text[1..], |text| - 2);
    assert text[1..][..|text| - 2] == Body(text) && text[1..][|text| - 2..] == [text[|text| - 1]];
  }

  /** Every high surrogate is followed by another \u escape. */
  predicate Paired(b: string)
    decreases |b|
  {
    b == "" ||
    (if b[0] == '\\' && |b| >= 2 && b[1] == 'u' then
       FourDigits(b[2..]) &&
       if b[2] in "dD" && b[3] in "89abAB" then
         |b| >= 12 && b[6] == '\\' && b[7] == 'u' && Paired(b[12..])
       else Paired(b[6..])
     else if b[0] == '\\' then |b| >= 2 && Paired(b[2..])
     else Paired(b[1..]))
  }

  /** The code units from D800 to DBFF. */
  lemma IsHighSurrogate(b: string)
    requires HexQuad(b).CodePoint?
    ensures b[0] in "dD" && b[1] in "89abAB" <==> 0xD800 <= HexQuad(b).value <= 0xDBFF
  {
    assert "dD" == ['d', 'D'] && "89abAB" == ['8', '9', 'a', 'b', 'A', 'B'];
    var d0, d1 := HexDigitValue(b[0]), HexDigitValue(b[1]);
    assert b[0] in "dD" <==> d0 == 13;
    assert b[1] in "89abAB" <==> 8 <= d1 <= 11;
    QuadDigits(b);
    QuadBounds(d0, d1, HexDigitValue(b[2]), HexDigitValue(b[3]));
    hide HexQuad, HexDigitValue;
  }

  lemma QuadBounds(d0: nat, d1: nat, d2: nat, d3: nat)
    requires d0 < 16 && d1 < 16 && d2 < 16 && d3 < 16
    ensures d0 == 13 && 8 <= d1 <= 11 <==> 0xD800 <= ((d0 * 16 + d1) * 16 + d2) * 16 + d3 <= 0xDBFF
  {
  }

  lemma PairedUnfold(b: string)
    ensures Paired(b) <==>
              b == "" ||
              (if b[0] == '\\' && |b| >= 2 && b[1] == 'u' then
                 HexQuad(b[2..]).CodePoint? &&
                 if 0xD800 <= HexQuad(b[2..]).value <= 0xDBFF then
                   |b| >= 12 && b[6] == '\\' && b[7] == 'u' && Paired(b[12..])
                 else Paired(b[6..])
               else if b[0] == '\\' then |b| >= 2 && Paired(b[2..])
               else Paired(b[1..]))
  {
    if |b| >= 2 && b[0] == '\\' && b[1] == 'u' {
      IsFourDigits(b[2..]);
      if HexQuad(b[2..]).CodePoint? {
        IsHighSurrogate(b[2..]);
      }
    }
    hide HexQuad, FourDigits;
  }

  /** In the other direction the reader is stricter: a JSON string decodes exactly if its high surrogates are paired. */
  lemma {:induction false} JsonStringsDecode(b: string)
    requires JsonChars(b)
    ensures DecodeChars(b).Decoded? <==> Paired(b)
    decreases |b|
  {
    hide JsonChars, Paired;
    JsonCharsUnfold(b);
    PairedUnfold(b);
    if b != "" {
      if b[0] == '\\' && b[1] == 'u' {
        var r := b[6..];
        assert b[2..][4..] == r;
        if 0xD800 <= HexQuad(b[2..]).value <= 0xDBFF && |r| >= 6 && r[0] == '\\' && r[1] == 'u' {
          assert r[2..] == b[8..] && r[6..] == b[12..] && r[2..][4..] == b[12..];
          JsonCharsUnfold(r);
          JsonStringsDecode(b[12..]);
        } else {
          JsonStringsDecode(r);
        }
      } else if b[0] == '\\' {
        JsonStringsDecode(b[2..]);
      } else {
        JsonStringsDecode(b[1..]);
      }
    }
  }

  // ----- strict JSON, without regard to what the reader can decode -----

  predicate JsonToken(l: Lexeme) {
    (l.kind.NumberLiteral? ==> JsonNumber(l.text)) && (l.kind.StringLiteral? ==> JsonString(l.text))
  }

  /** value = false / null / true / object / array / number / string */
  predicate JsonTree(t: Tree) {
    t.before == [] &&
    match t
    case Leaf(_, token) => LeafKind(token.kind) && JsonToken(token)
    case Dropped(_) => false
    case ArrayOf(_, open, items) => open.kind.ArrayBegin? && JsonItems(items)
    case ObjectOf(_, open, members) =>
      open.kind.ObjectBegin? &&
      if members.NoMembers? then members.after == [] && members.close.kind.ObjectEnd? else JsonMembers(members)
  }

  /** array = begin-array [ value *( value-separator value ) ] end-array */
  predicate JsonItems(items: Items) {
    match items
    case NoItems(close) => close.kind.ArrayEnd?
    case LastItem(item, after, close) => JsonTree(item) && after == [] && close.kind.ArrayEnd?
    case MoreItems(item, after, comma, others) =>
      JsonTree(item) && after == [] && comma.kind.ArraySeparator? && !others.NoItems? && JsonItems(others)
  }

  /** object = begin-object [ member *( value-separator member ) ] end-object */
  predicate JsonMembers(members: Members) {
    match members
    case NoMembers(_, _) => false
    case LastMember(m, after, close) => JsonMember(m) && after == [] && close.kind.ObjectEnd?
    case MoreMembers(m, after, comma, others) =>
      JsonMember(m) && after == [] && comma.kind.ArraySeparator? && JsonMembers(others)
  }

  /** member = string name-separator value */
  predicate JsonMember(m: Member) {
    m.before == [] && m.name.kind.StringLiteral? && JsonToken(m.name) && m.colon.kind.MemberSeparator? &&
    JsonTree(m.value)
  }

  predicate JsonPrefix(ls: seq<Lexeme>, t: Tree, rest: seq<Lexeme>) {
    JsonTree(t) && ls == Yield(t) + rest
  }

  /** The text begins with a JSON value. */
  ghost predicate BeginsWithJson(r: string) {
    exists t, rest :: JsonPrefix(Lex(r), t, rest)
  }

  // ----- which JSON is read -----

  /** A string with its high surrogates paired; a number that is a 64-bit integer or one the C library reads. */
  predicate ReadableToken(c: Config, l: Lexeme) {
    (l.kind.StringLiteral? ==> |l.text| >= 2 && Paired(Body(l.text))) &&
    (l.kind.NumberLiteral? ==> (Integral(l.text) && Fits(l.text)) || c.scanDouble(l.text).Some?)
  }

  predicate Readable(c: Config, t: Tree) {
    match t
    case Leaf(_, token) => ReadableToken(c, token)
    case Dropped(_) => true
    case ArrayOf(_, _, items) => ReadableItems(c, items)
    case ObjectOf(_, _, members) => ReadableMembers(c, members)
  }

  predicate ReadableItems(c: Config, items: Items) {
    match items
    case NoItems(_) => true
    case LastItem(item, _, _) => Readable(c, item)
    case MoreItems(item, _, _, others) => Readable(c, item) && ReadableItems(c, others)
  }

  predicate ReadableMembers(c: Config, members: Members) {
    match members
    case NoMembers(_, _) => true
    case LastMember(m, _, _) => ReadableToken(c, m.name) && Readable(c, m.value)
    case MoreMembers(m, _, _, others) => ReadableToken(c, m.name) && Readable(c, m.value) && ReadableMembers(c, others)
  }

  lemma TokenReadable(c: Config, l: Lexeme)
    requires LeafKind(l.kind) && JsonToken(l)
    ensures ScalarOf(c, TokenOf(l)).Good? <==> ReadableToken(c, l)
    ensures l.kind.StringLiteral? ==> (NameIn(c, l).Named? <==> ReadableToken(c, l))
  {
    if l.kind.StringLiteral? {
      JsonStringsDecode(Body(l.text));
    }
    hide JsonChars, DecodeChars, Paired, JsonNumber, Denoted, CStr;
  }

  lemma {:induction false} JsonShaped(t: Tree)
    requires JsonTree(t)
    ensures ShapedTree(t)
    decreases t
  {
    match t
    case Leaf(_, _) =>
    case ArrayOf(_, _, items) => JsonItemsShaped(items);
    case ObjectOf(_, _, members) =>
      if !members.NoMembers? {
        JsonMembersShaped(members);
      }
    hide JsonToken, JsonItems, JsonMembers, ShapedItems, ShapedMembers;
  }

  lemma {:induction false} JsonItemsShaped(items: Items)
    requires JsonItems(items)
    ensures ShapedItems(items)
    decreases items
  {
    hide JsonTree, ShapedTree;
    if !items.NoItems? {
      JsonShaped(items.item);
      if items.MoreItems? {
        JsonItemsShaped(items.others);
      }
      JsonNotDropped(items.item);
    }
  }

  lemma JsonNotDropped(t: Tree)
    ensures JsonTree(t) ==> !t.Dropped?
  {
  }

  lemma {:induction false} JsonMembersShaped(ms: Members)
    requires JsonMembers(ms)
    ensures ShapedMembers(ms)
    decreases ms
  {
    hide JsonTree, ShapedTree, JsonToken;
    JsonShaped(ms.member.value);
    JsonNotDropped(ms.member.value);
    if ms.MoreMembers? {
      JsonMembersShaped(ms.others);
    }
  }

  lemma {:induction false} JsonValidIff(c: Config, t: Tree)
    requires JsonTree(t)
    ensures ValidTree(c, t) <==> Readable(c, t)
    decreases t
  {
    hide ScalarOf, JsonToken, ReadableToken, ValidItems, ValidMembers, ReadableItems, ReadableMembers, JsonItems,
         JsonMembers;
    match t
    case Leaf(_, token) => TokenReadable(c, token);
    case ArrayOf(_, _, items) => JsonItemsValidIff(c, items);
    case ObjectOf(_, _, members) =>
      if members.NoMembers? {
        NoMembersValid(c, members);
      } else {
        JsonMembersValidIff(c, members, "");
      }
  }

  lemma NoMembersValid(c: Config, ms: Members)
    requires ms.NoMembers? && ms.after == [] && ms.close.kind.ObjectEnd?
    ensures ValidMembers(c, ms, "") && ReadableMembers(c, ms)
  {
  }

  lemma {:induction false} JsonItemsValidIff(c: Config, items: Items)
    requires JsonItems(items)
    ensures ValidItems(c, items) <==> ReadableItems(c, items)
    decreases items
  {
    hide ValidTree, JsonTree, Readable;
    if !items.NoItems? {
      JsonValidIff(c, items.item);
      JsonNotDropped(items.item);
      if items.MoreItems? {
        JsonItemsValidIff(c, items.others);
      }
    }
  }

  lemma {:induction false} JsonMembersValidIff(c: Config, ms: Members, last: string)
    requires JsonMembers(ms)
    ensures ValidMembers(c, ms, last) <==> ReadableMembers(c, ms)
    decreases ms
  {
    hide ValidTree, JsonTree, Readable, NameIn, JsonToken, ReadableToken;
    var m := ms.member;
    TokenReadable(c, m.name);
    JsonValidIff(c, m.value);
    JsonNotDropped(m.value);
    if ms.MoreMembers? && NameIn(c, m.name).Named? {
      JsonMembersValidIff(c, ms.others, NameIn(c, m.name).name);
    }
  }

  /**
   * A text that begins with a JSON value is read if and only if in all its strings high surrogates
   * are paired and all its numbers are 64-bit integers or numbers the C library reads.
   */
  lemma JsonReadIff(c: Config, n: int, r: string, node: Value, t: Tree, rest: seq<Lexeme>)
    requires JsonPrefix(Lex(r), t, rest)
    ensures var o := ReadValue(c, n, r, node);
            (o.ok <==> Readable(c, t)) &&
            (o.ok ==> ValidTree(c, t) && Strip(o.node) == Meaning(c, t) && Lex(o.rest) == rest)
  {
    hide ReadValue, Lex, Meaning, JsonTree, ValidTree, ShapedTree, Readable, Yield, Strip;
    JsonValidIff(c, t);
    JsonNotDropped(t);
    if Readable(c, t) {
      ValueReads(c, n, r, node, t, rest);
    }
    if ReadValue(c, n, r, node).ok {
      var u := ValueDerived(c, n, r, node);
      JsonShaped(t);
      ValidShaped(c, u);
      SameTree(u, Lex(ReadValue(c, n, r, node).rest), t, rest);
    }
  }

  /** What is read begins with a JSON value exactly if the one derivation it has is that of a JSON value. */
  lemma StrictIff(c: Config, n: int, r: string, node: Value) returns (t: Tree)
    requires ReadValue(c, n, r, node).ok
    ensures Derivation(c, Lex(r), t, Lex(ReadValue(c, n, r, node).rest))
    ensures BeginsWithJson(r) <==> JsonTree(t)
  {
    hide ReadValue, Lex, Meaning, JsonTree, ValidTree, ShapedTree, Yield, Strip;
    t := ValueDerived(c, n, r, node);
    var left := Lex(ReadValue(c, n, r, node).rest);
    if JsonTree(t) {
      assert JsonPrefix(Lex(r), t, left);
    }
    if BeginsWithJson(r) {
      var u, rest :| JsonPrefix(Lex(r), u, rest);
      JsonShaped(u);
      JsonNotDropped(u);
      ValidShaped(c, t);
      SameTree(t, left, u, rest);
    }
  }

  // ----- documents of one token -----

  /** A document that is one literal. */
  lemma LiteralDocument(c: Config, doc: string, kind: Kind, root: Value)
    requires Scans(doc, [Lexeme(kind, doc)]) && LeafKind(kind)
    ensures var s := ScalarOf(c, Token(kind, doc, ""));
            (ReadValue(c, |doc|, doc, root).ok <==> s.Good?) &&
            (s.Good? ==> Strip(ReadValue(c, |doc|, doc, root).node) == Plain(s.data))
    ensures JsonToken(Lexeme(kind, doc)) ==> BeginsWithJson(doc)
  {
    hide ReadValue, Lex, Strip, ScalarOf, Solid, JsonToken;
    var l := Lexeme(kind, doc);
    var t := Leaf([], l);
    assert Yield(t) + [] == [l];
    if ScalarOf(c, TokenOf(l)).Good? {
      assert ValidTree(c, t);
      ValueReads(c, |doc|, doc, root, t, []);
    }
    if ReadValue(c, |doc|, doc, root).ok {
      var u := ValueDerived(c, |doc|, doc, root);
      var left := Lex(ReadValue(c, |doc|, doc, root).rest);
      ValidShaped(c, u);
      assert ShapedTree(t);
      hide ShapedTree, Yield;
      SameTree(u, left, t, []);
    }
    if JsonToken(l) {
      assert JsonTree(t);
      assert JsonPrefix(Lex(doc), t, []);
    }
  }

  /** Leading zeros: 007 is read as 7, and is no JSON number. */
  lemma LeadingZeros(c: Config, doc: string, root: Value)
    requires doc == "007"
    ensures ReadValue(c, |doc|, doc, root).ok && Strip(ReadValue(c, |doc|, doc, root).node) == Plain(Int(7))
    ensures !JsonNumber(doc)
  {
    hide *;
    ZerosToken(doc);
    ZerosScalar(c, doc);
    LiteralsAreLeaves();
    LiteralDocument(c, doc, NumberLiteral, root);
  }

  lemma LiteralsAreLeaves()
    ensures LeafKind(NumberLiteral) && LeafKind(StringLiteral)
  {
  }

  lemma ZerosScalar(c: Config, doc: string)
    requires doc == "007"
    ensures ScalarOf(c, Token(NumberLiteral, doc, "")) == Good(Int(7)) && !JsonNumber(doc)
  {
    ZerosValue(doc);
    LenientIntegers(doc);
    hide NumberOf, JsonNumber, Integral, NumberToken;
  }

  lemma ZerosToken(doc: string)
    requires doc == "007"
    ensures Scans(doc, [Lexeme(NumberLiteral, doc)])
  {
    assert doc[1..] == "07" && "07"[1..] == "7" && "7"[1..] == "";
    assert SkipNumber("7") == "" && SkipNumber("07") == "";
    hide SkipNumber, Scans;
    OneToken(doc, NumberLiteral);
  }

  lemma ZerosValue(doc: string)
    requires doc == "007"
    ensures NumberToken(doc) && Integral(doc) && DigitsOf(doc) == doc && NumberOf(doc) == Signed(7)
  {
    assert doc[..2] == "00" && "00"[..1] == "0" && "0"[..0] == "";
    assert Magnitude("0") == 0 && Magnitude("00") == 0 && Magnitude(doc) == 7;
    hide Magnitude;
  }

  /** A raw control character: a quoted tab is read, and is no JSON string. */
  lemma RawTab(c: Config, doc: string, root: Value)
    requires doc == "\"\t\""
    ensures ReadValue(c, |doc|, doc, root).ok && Strip(ReadValue(c, |doc|, doc, root).node) == Plain(Str("\t"))
    ensures !JsonString(doc)
  {
    hide *;
    TabToken(doc);
    TabScalar(c, doc);
    LiteralsAreLeaves();
    LiteralDocument(c, doc, StringLiteral, root);
  }

  lemma TabScalar(c: Config, doc: string)
    requires doc == "\"\t\""
    ensures ScalarOf(c, Token(StringLiteral, doc, "")) == Good(Str("\t")) && !JsonString(doc)
  {
    hide DecodeString, JsonString, StringToken, Scans, CStr;
    TabToken(doc);
    LenientStrings(doc);
    assert doc[1] < ' ';
    CStrOfNulFree("\t");
  }

  lemma TabToken(doc: string)
    requires doc == "\"\t\""
    ensures Scans(doc, [Lexeme(StringLiteral, doc)]) && StringToken(doc) && DecodeString(doc) == Decoded("\t", "")
  {
    var body := "\t";
    assert Body(doc) == body && body[1..] == "" && WellScanned(body);
    assert DecodeChars(body) == Decoded("\t", "");
    ScansBody(body, "");
    assert doc[1..] == body + "\"" + "";
    hide ScanString, Scans, DecodeChars;
    OneToken(doc, StringLiteral);
  }

  /** A JSON string that is a lone high surrogate is not read. */
  lemma LoneSurrogate(c: Config, doc: string, root: Value)
    requires doc == "\"\\uD800\""
    ensures JsonString(doc) && BeginsWithJson(doc) && !ReadValue(c, |doc|, doc, root).ok
  {
    hide *;
    SurrogateToken(doc);
    SurrogateScalar(c, doc);
    LiteralsAreLeaves();
    LiteralDocument(c, doc, StringLiteral, root);
  }

  lemma SurrogateScalar(c: Config, doc: string)
    requires doc == "\"\\uD800\""
    ensures !ScalarOf(c, Token(StringLiteral, doc, "")).Good? && JsonToken(Lexeme(StringLiteral, doc))
  {
    SurrogateToken(doc);
    hide DecodeString, JsonString, Lex;
  }

  lemma SurrogateToken(doc: string)
    requires doc == "\"\\uD800\""
    ensures Scans(doc, [Lexeme(StringLiteral, doc)]) && JsonString(doc) && DecodeString(doc).Bad?
  {
    var body := "\\uD800";
    assert Body(doc) == body;
    SurrogateScanned(body);
    SurrogateDecoded(body);
    ScansBody(body, "");
    assert doc[1..] == body + "\"" + "";
    hide ScanString, Scans, DecodeChars, JsonChars;
    OneToken(doc, StringLiteral);
  }

  lemma SurrogateDecoded(body: string)
    requires body == "\\uD800"
    ensures JsonChars(body) && DecodeChars(body).Bad?
  {
    assert body[2..] == "D800" && body[6..] == "";
    assert HexQuad("D800") == CodePoint(0xD800, "");
    assert JsonChars(body);
    assert !Paired(body);
    JsonStringsDecode(body);
    hide DecodeChars, JsonChars, Paired;
  }

  lemma SurrogateScanned(body: string)
    requires body == "\\uD800"
    ensures WellScanned(body)
  {
    assert body[2..] == "D800" && "D800"[1..] == "800" && "800"[1..] == "00" && "00"[1..] == "0" && "0"[1..] == "";
    assert WellScanned("0");
    assert WellScanned("00");
    assert WellScanned("800");
  }

  // ----- two documents that are accepted, and why -----

  const ONE := Lexeme(NumberLiteral, "1")
  const EMPTY_NAME := Lexeme(StringLiteral, "\"\"")
  const COMMENT := Lexeme(Comment, "/**/")

  lemma LexOne(s: string, l: Lexeme, rest: string)
    requires s == l.text + rest && l.text != "" && !Space(s[0]) && CutToken(s) == Cut(l.kind, rest)
    ensures Lex(s) == [l] + Lex(rest)
  {
    hide CutToken, Lex;
    LexUnfolds(s, Token(l.kind, l.text, rest));
  }

  /** The tokens the two documents are made of, in front of whatever follows. */
  lemma TokenNext(l: Lexeme, rest: string)
    requires Scans(l.text, [l]) && SolidKind(l.kind) && l.text != ""
    requires l.kind.NumberLiteral? ==> rest == "" || !NumberChar(rest[0])
    ensures Lex(l.text + rest) == [l] + Lex(rest)
  {
    hide *;
    Unpack(l.text, [l]);
    LexStep(l.text);
    WholeToken(l.text);
    TokenExtends(l.text, rest);
    assert "" + rest == rest;
    LexUnfolds(l.text + rest, ReadToken(l.text + rest));
  }

  lemma WholeToken(s: string)
    ensures ReadToken(s).text == s ==> ReadToken(s).rest == ""
  {
    hide CutToken;
  }

  lemma CommentNext(rest: string)
    ensures Lex("/**/" + rest) == [COMMENT] + Lex(rest)
  {
    hide Lex;
    CommentCut(rest);
    hide CutToken;
    LexOne("/**/" + rest, COMMENT, rest);
  }

  lemma CommentCut(rest: string)
    ensures CutToken("/**/" + rest) == Cut(Comment, rest)
  {
    var s, s1, s2 := "/**/" + rest, "**/" + rest, "*/" + rest;
    assert s[1..] == s1 && s1[1..] == s2 && s2[2..] == rest;
    assert ScanCStyle(s2) == Scan(true, rest);
    hide ScanCStyle;
    assert ScanComment(s1) == Scan(true, rest);
    hide ScanComment;
  }

  lemma SmallTokens()
    ensures Scans("{", [OPEN_OBJECT]) && Scans("}", [CLOSE_OBJECT]) && Scans(":", [COLON]) && Scans(",", [COMMA])
    ensures Scans("1", [ONE]) && Scans("\"\"", [EMPTY_NAME])
  {
    hide Scans;
    Punctuation("{");
    Punctuation("}");
    Punctuation(":");
    Punctuation(",");
    NumberScans(1);
    StringScans("");
    assert IntText(1) == "1" && Quote("") == "\"\"";
  }

  /** {"":1 in front of `rest` */
  lemma MemberNext(rest: string)
    requires rest != "" && !NumberChar(rest[0])
    ensures Lex("\"\":1" + rest) == [EMPTY_NAME, COLON, ONE] + Lex(rest)
  {
    SmallTokens();
    hide Scans, Lex;
    TokenNext(ONE, rest);
    TokenNext(COLON, "1" + rest);
    TokenNext(EMPTY_NAME, ":" + ("1" + rest));
    assert "\"\":1" + rest == "\"\"" + (":" + ("1" + rest));
  }

  lemma NoTokens()
    ensures Lex("") == []
  {
  }

  lemma SmallLiterals(c: Config)
    ensures ScalarOf(c, TokenOf(ONE)) == Good(Int(1))
    ensures NameIn(c, EMPTY_NAME) == Named("")
  {
    assert Magnitude("1") == 1 by { assert "1"[..0] == ""; }
  }

  /** A closing brace where a name is due ends the object if and only if the name before is empty. */
  lemma BraceForName(c: Config, n: int, r: string, node: Value, name: string)
    requires node.data.Obj? && SkipComments(r).kind.ObjectEnd?
    ensures ReadMembers(c, n, r, node, name).ok <==> name == ""
    ensures name != "" ==> ReadMembers(c, n, r, node, name).errors == [ErrorAt(MissingMemberName, n, SkipComments(r))]
  {
    MembersUnfold(c, n, r, node, name);
    hide SkipComments, ReadMembers, ReadMember, DecodeString, NumberData, Recover, Suffix;
  }

  /**
   * A string value ends before its first NUL.  A name keeps what is behind it for the look at a closing
   * brace, and loses it only where the member is stored.
   */
  lemma StringsAndNames(c: Config, ps: seq<Piece>, rest: string, n: int, r: string, node: Value)
    requires AllProper(ps)
    ensures var t, text := Token(StringLiteral, "\"" + TextOf(ps) + "\"", rest), MeaningOf(ps);
            ScalarOf(c, t) == Good(Str(CStr(text))) && NameOf(c, t) == Named(text)
    ensures node.data.Obj? && ReadToken(r).kind.MemberSeparator? && ReadMember(c, n, r, node, MeaningOf(ps)).More? ==>
              Find(ReadMember(c, n, r, node, MeaningOf(ps)).node.data.entries, Name(CStr(MeaningOf(ps)))).Some?
  {
    hide *;
    QuotedDecodes(c, ps, rest);
    if node.data.Obj? && ReadToken(r).kind.MemberSeparator? {
      MemberStored(c, n, r, node, MeaningOf(ps));
    }
  }

  lemma QuotedDecodes(c: Config, ps: seq<Piece>, rest: string)
    requires AllProper(ps)
    ensures var t, text := Token(StringLiteral, "\"" + TextOf(ps) + "\"", rest), MeaningOf(ps);
            ScalarOf(c, t) == Good(Str(CStr(text))) && NameOf(c, t) == Named(text)
  {
    DecodesPieces(ps);
    var text := "\"" + TextOf(ps) + "\"";
    assert Body(text) == TextOf(ps);
    hide DecodeChars, TextOf, MeaningOf, CStr, Body, NumberData;
  }

  lemma MemberStored(c: Config, n: int, r: string, node: Value, name: string)
    requires node.data.Obj? && ReadToken(r).kind.MemberSeparator?
    ensures ReadMember(c, n, r, node, name).More? ==>
              Find(ReadMember(c, n, r, node, name).node.data.entries, Name(CStr(name))).Some?
  {
    hide *;
    MemberUnfold(c, n, r, node, name);
    var key := Name(CStr(name));
    var v := ReadValue(c, n, ReadToken(r).rest, Get(node.data.entries, key));
    MemberEndUnfold(c, n, r, v, node.(data := Obj(Put(node.data.entries, key, v.node))));
    FindsPut(node.data.entries, key, v.node);
  }

  lemma {:induction false} FindsPut(es: Entries, key: Key, val: Value)
    ensures Find(Put(es, key, val), key) == Some(val)
  {
    hide KeyLess;
    if es.Cons? && es.key != key && !KeyLess(key, es.key) {
      FindsPut(es.rest, key, val);
    }
  }

  const TRAILING_COMMA := "{\"\":1,}"

  lemma TrailingCommaTokens()
    ensures Lex(TRAILING_COMMA) == [OPEN_OBJECT, EMPTY_NAME, COLON, ONE, COMMA, CLOSE_OBJECT]
  {
    SmallTokens();
    NoTokens();
    hide Scans, Lex;
    TokenNext(CLOSE_OBJECT, "");
    TokenNext(COMMA, "}" + "");
    MemberNext("," + ("}" + ""));
    TokenNext(OPEN_OBJECT, "\"\":1" + ("," + ("}" + "")));
    assert TRAILING_COMMA == "{" + ("\"\":1" + ("," + ("}" + "")));
  }

  function EmptyMember(): Member {
    Member([], EMPTY_NAME, COLON, Leaf([], ONE))
  }

  lemma EmptyMemberIs(c: Config)
    ensures ValidMember(c, EmptyMember()) && MemberYield(EmptyMember()) == [EMPTY_NAME, COLON, ONE]
    ensures WithMember(c, EmptyMember(), Nil) == Cons(Name(""), Plain(Int(1)), Nil)
  {
    SmallLiterals(c);
    hide ScalarOf, NameOf;
    assert ValidTree(c, Leaf([], ONE));
    assert CStr("") == "";
  }

  /** A trailing comma is accepted behind an empty name. */
  lemma TrailingCommaAccepted(c: Config, root: Value)
    ensures var o := Parse(c, TRAILING_COMMA, root);
            o.ok && Strip(o.node) == Plain(Obj(Cons(Name(""), Plain(Int(1)), Nil)))
  {
    TrailingCommaTokens();
    EmptyMemberIs(c);
    SmallLiterals(c);
    hide Parse, Lex, NameOf, ValidMember, WithMember, MemberYield;
    var none := NoMembers([], CLOSE_OBJECT);
    assert ValidMembers(c, none, "") && MembersYield(none) == [CLOSE_OBJECT];
    ObjectAccepted(c, TRAILING_COMMA, root, OPEN_OBJECT, MoreMembers(EmptyMember(), [], COMMA, none));
  }

  const COMMENT_FOR_COMMA := "{\"\":1/**/1\"\":1}"

  lemma CommentTokens()
    ensures Lex(COMMENT_FOR_COMMA) ==
              [OPEN_OBJECT, EMPTY_NAME, COLON, ONE, COMMENT, ONE, EMPTY_NAME, COLON, ONE, CLOSE_OBJECT]
  {
    SmallTokens();
    NoTokens();
    hide Scans, Lex;
    var last := "\"\":1" + ("}" + "");
    TokenNext(CLOSE_OBJECT, "");
    MemberNext("}" + "");
    TokenNext(ONE, last);
    CommentNext("1" + last);
    MemberNext("/**/" + ("1" + last));
    TokenNext(OPEN_OBJECT, "\"\":1" + ("/**/" + ("1" + last)));
    assert COMMENT_FOR_COMMA == "{" + ("\"\":1" + ("/**/" + ("1" + last)));
  }

  /** Behind a comment the number 1 is accepted for a comma. */
  lemma CommentForComma(c: Config, root: Value)
    ensures Parse(c, COMMENT_FOR_COMMA, root).ok
  {
    CommentTokens();
    EmptyMemberIs(c);
    hide Parse, Lex, NameOf, ValidMember, WithMember, MemberYield;
    var last := LastMember(EmptyMember(), [], CLOSE_OBJECT);
    assert ValidMembers(c, last, "") && MembersYield(last) == [EMPTY_NAME, COLON, ONE, CLOSE_OBJECT];
    assert ValidMembers(c, last, NameIn(c, EMPTY_NAME).name);
    ObjectAccepted(c, COMMENT_FOR_COMMA, root, OPEN_OBJECT, MoreMembers(EmptyMember(), [COMMENT], ONE, last));
  }

  /** Where numbers are allowed as names, a member is named by the text of the integer, without leading zeros. */
  lemma NumericNames(c: Config, text: string, rest: string)
    requires NumberToken(text) && Integral(text) && Fits(text)
    ensures NameOf(c, Token(NumberLiteral, text, rest)) ==
              if c.allowNumericKeys then Named(IntText(Denoted(text))) else Unnamed(MissingMemberName)
  {
    hide Denoted, IntText;
  }
}
