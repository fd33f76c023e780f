/** Both writers print the same token stream for a value, whatever the layout. */
module Streams {
  import opened Text
  import opened Numbers
  import opened Strings
  import opened Tokens
  import opened Values
  import opened Layout

  /** The trees the round trips are about. */
  ghost predicate Printable(v: Value) {
    WellFormed(v) && RealFree(v)
  }

  ghost predicate PrintableOf(es: Entries) {
    WellFormedOf(es) && RealFreeOf(es)
  }

  lemma StringFine(s: string)
    requires NulFree(s)
    ensures WellFormed(Plain(Str(s))) && RealFree(Plain(Str(s)))
  {
    hide NulFree;
  }

  lemma NilFine(key: Key)
    ensures WellFormedOf(Nil) && RealFreeOf(Nil) && Sorted(Nil) && Sort(Nil, false) && Above(key, Nil)
  {
  }

  lemma ConsFine(key: string, val: Value, rest: Entries)
    requires NulFree(key) && WellFormed(val) && RealFree(val) && Above(Name(key), rest)
    requires WellFormedOf(rest) && RealFreeOf(rest) && Sorted(rest) && Sort(rest, false)
    ensures var es := Cons(Name(key), val, rest);
            WellFormedOf(es) && RealFreeOf(es) && Sorted(es) && Sort(es, false)
  {
    hide NulFree, WellFormed, RealFree, Above;
  }

  lemma ObjectFine(es: Entries)
    requires WellFormedOf(es) && RealFreeOf(es) && Sorted(es) && Sort(es, false)
    ensures Printable(Plain(Obj(es)))
  {
    hide WellFormedOf, RealFreeOf, Sorted, Sort;
  }

  const COMMA := Lexeme(ArraySeparator, ",")
  const COLON := Lexeme(MemberSeparator, ":")
  const OPEN_ARRAY := Lexeme(ArrayBegin, "[")
  const CLOSE_ARRAY := Lexeme(ArrayEnd, "]")
  const OPEN_OBJECT := Lexeme(ObjectBegin, "{")
  const CLOSE_OBJECT := Lexeme(ObjectEnd, "}")

  /** The one token of a scalar. */
  function ScalarToken(d: Data): Lexeme {
    match d
    case Bool(true) => Lexeme(TrueWord, "true")
    case Bool(false) => Lexeme(FalseWord, "false")
    case Int(i) => Lexeme(NumberLiteral, IntText(i as int))
    case UInt(u) => Lexeme(NumberLiteral, IntText(u as int))
    case Str(s) => Lexeme(StringLiteral, Quote(s))
    case _ => Lexeme(NullWord, "null")
  }

  function TokensOf(v: Value): (ls: seq<Lexeme>)
    ensures ls != []
    decreases Weight(v), 0, 0
  {
    match v.data
    case Arr(es) => [OPEN_ARRAY] + (if Size(es) == 0 then [] else ItemTokens(es, 0)) + [CLOSE_ARRAY]
    case Obj(es) => [OPEN_OBJECT] + (if es.Nil? then [] else MemberTokens(es)) + [CLOSE_OBJECT]
    case _ => [ScalarToken(v.data)]
  }

  function ItemTokens(es: Entries, index: nat): seq<Lexeme>
    requires index < Size(es)
    decreases WeightOf(es), 1, Size(es) - index
  {
    GetWeight(es, Idx(index));
    TokensOf(At(es, index)) + (if index + 1 == Size(es) then [] else [COMMA] + ItemTokens(es, index + 1))
  }

  function MemberTokens(es: Entries): seq<Lexeme>
    requires es.Cons?
    decreases WeightOf(es), 1, 0
  {
    [Lexeme(StringLiteral, Quote(NameText(es.key))), COLON] + TokensOf(es.val) +
    (if es.rest.Nil? then [] else [COMMA] + MemberTokens(es.rest))
  }

  // ----- the pieces -----

  /** `s` scans as `ls`, without errors. */
  ghost predicate Scans(s: string, ls: seq<Lexeme>) {
    Lex(s) == ls && Solid(s)
  }

  lemma OneToken(s: string, kind: Kind)
    requires s != "" && !Space(s[0]) && SolidKind(kind) && CutToken(s) == Cut(kind, "")
    ensures Scans(s, [Lexeme(kind, s)])
  {
    hide CutToken;
    assert ReadToken(s) == Token(kind, s, "");
    LexUnfolds(s, ReadToken(s));
    LexUnfolds("", ReadToken(""));
  }

  lemma Glue(a: string, b: string, ls: seq<Lexeme>, ms: seq<Lexeme>)
    requires Scans(a, ls) && Scans(b, ms) && Joins(a, b)
    ensures Scans(a + b, ls + ms)
  {
    hide *;
    assert Lex(a) == ls && Solid(a) && Lex(b) == ms && Solid(b) by {
      Unpack(a, ls);
      Unpack(b, ms);
    }
    LexAppend(a, b);
    Pack(a + b, ls + ms);
  }

  lemma Unpack(s: string, ls: seq<Lexeme>)
    requires Scans(s, ls)
    ensures Lex(s) == ls && Solid(s)
  {
    hide Lex, Solid;
  }

  lemma Pack(s: string, ls: seq<Lexeme>)
    requires Lex(s) == ls && Solid(s)
    ensures Scans(s, ls)
  {
    hide Lex, Solid;
  }

  lemma Blank(s: string)
    requires forall i :: 0 <= i < |s| ==> Space(s[i])
    ensures Scans(s, [])
  {
    hide CutToken;
    AllSkipped(s);
    LexUnfolds(s, ReadToken(s));
  }

  lemma {:induction false} AllSkipped(s: string)
    requires forall i :: 0 <= i < |s| ==> Space(s[i])
    ensures SkipSpaces(s) == ""
  {
    if s != "" {
      AllSkipped(s[1..]);
    }
  }

  lemma Punctuation(s: string)
    requires s in {"[", "]", "{", "}", ",", ":"}
    ensures Scans(s, [if s == "[" then OPEN_ARRAY else if s == "]" then CLOSE_ARRAY else if s == "{" then OPEN_OBJECT
                      else if s == "}" then CLOSE_OBJECT else if s == "," then COMMA else COLON])
  {
    var kind := if s == "[" then ArrayBegin else if s == "]" then ArrayEnd else if s == "{" then ObjectBegin
                else if s == "}" then ObjectEnd else if s == "," then ArraySeparator else MemberSeparator;
    assert CutToken(s) == Cut(kind, "") by {
      assert s[1..] == "";
    }
    OneToken(s, kind);
  }

  /** Punctuation with blanks around it. */
  lemma Padded(before: string, s: string, after: string, l: Lexeme)
    requires Scans(s, [l]) && before in {"", " "} && after in {"", " "}
    ensures Scans(before + s + after, [l])
  {
    hide Scans, Lex, Solid;
    Blank(before);
    Blank(after);
    Glue(before, s, [], [l]);
    Glue(before + s, after, [] + [l], []);
    assert [] + [l] + [] == [l];
  }

  lemma Words()
    ensures Scans("null", [Lexeme(NullWord, "null")])
    ensures Scans("true", [Lexeme(TrueWord, "true")])
    ensures Scans("false", [Lexeme(FalseWord, "false")])
  {
    hide Scans, Lex, Solid;
    assert "null"[1..] == "ull" && "true"[1..] == "rue" && "false"[1..] == "alse";
    OneToken("null", NullWord);
    OneToken("true", TrueWord);
    OneToken("false", FalseWord);
  }

  lemma {:induction false} AllNumber(s: string)
    requires forall i :: 0 <= i < |s| ==> NumberChar(s[i])
    ensures SkipNumber(s) == ""
  {
    if s != "" {
      AllNumber(s[1..]);
    }
  }

  lemma NumberScans(i: int)
    ensures Scans(IntText(i), [Lexeme(NumberLiteral, IntText(i))])
    ensures IntText(i) != "" && IntText(i)[0] != '#'
  {
    var s := IntText(i);
    assert forall k :: 1 <= k < |s| ==> NumberChar(s[k]);
    AllNumber(s[1..]);
    hide SkipNumber, IntText;
    assert CutToken(s) == Cut(NumberLiteral, "");
    OneToken(s, NumberLiteral);
  }

  lemma StringScans(s: string)
    requires NulFree(s)
    ensures Scans(Quote(s), [Lexeme(StringLiteral, Quote(s))]) && Quote(s) != ""
  {
    hide Escapes, ScanString, Lex, Solid;
    QuoteRoundTrip(s, "");
    assert Quote(s) + "" == Quote(s);
    OneToken(Quote(s), StringLiteral);
  }

  /** The text of a scalar or empty container scans as its tokens. */
  lemma FlatScans(p: Printer, v: Value)
    requires Printable(v) && !Filled(v)
    ensures Scans(Flat(p, v), TokensOf(v)) && Flat(p, v) != ""
  {
    hide Scans, Lex, Solid, Quote, IntText, Size;
    match v.data
    case Null => Words();
    case Bool(_) => Words();
    case Int(i) => NumberScans(i as int);
    case UInt(u) => NumberScans(u as int);
    case Str(s) => StringScans(s);
    case Arr(_) =>
      Punctuation("[");
      Punctuation("]");
      Glue("[", "]", [OPEN_ARRAY], [CLOSE_ARRAY]);
      assert "[" + "]" == "[]";
      assert [OPEN_ARRAY] + [] + [CLOSE_ARRAY] == [OPEN_ARRAY] + [CLOSE_ARRAY];
    case Obj(_) =>
      Punctuation("{");
      Punctuation("}");
      Glue("{", "}", [OPEN_OBJECT], [CLOSE_OBJECT]);
      assert "{" + "}" == "{}";
      assert [OPEN_OBJECT] + [] + [CLOSE_OBJECT] == [OPEN_OBJECT] + [CLOSE_OBJECT];
  }

  // ----- one step of the token functions -----

  lemma ItemTokensStep(es: Entries, index: nat)
    requires index < Size(es)
    ensures ItemTokens(es, index) ==
              TokensOf(At(es, index)) + (if index + 1 == Size(es) then [] else [COMMA] + ItemTokens(es, index + 1))
  {
    hide TokensOf, Get, Size;
  }

  lemma MemberTokensStep(es: Entries)
    requires es.Cons?
    ensures MemberTokens(es) ==
              [Lexeme(StringLiteral, Quote(NameText(es.key))), COLON] + TokensOf(es.val) +
              (if es.rest.Nil? then [] else [COMMA] + MemberTokens(es.rest))
  {
    hide TokensOf, Quote;
  }

  lemma ArrayTokens(v: Value)
    requires v.data.Arr?
    ensures var es := v.data.entries;
            TokensOf(v) == [OPEN_ARRAY] + (if Size(es) == 0 then [] else ItemTokens(es, 0)) + [CLOSE_ARRAY]
  {
    hide ItemTokens, Size;
  }

  lemma ObjectTokens(v: Value)
    requires v.data.Obj?
    ensures var es := v.data.entries;
            TokensOf(v) == [OPEN_OBJECT] + (if es.Nil? then [] else MemberTokens(es)) + [CLOSE_OBJECT]
  {
    hide MemberTokens;
  }

  lemma {:induction false} GetPrintable(es: Entries, key: Key)
    requires PrintableOf(es)
    ensures Printable(Get(es, key))
  {
    if es.Cons? {
      GetPrintable(es.rest, key);
    }
  }

  // ----- FastWriter -----

  lemma FastShape(f: FastStyle, v: Value)
    requires !f.dropNulls
    ensures v.data.Arr? ==> Fast(f, v) == "[" + FastItems(f, v.data.entries, 0) + "]"
    ensures v.data.Obj? ==> Fast(f, v) == "{" + FastMembers(f, v.data.entries, true) + "}"
    ensures !v.data.Arr? && !v.data.Obj? ==> Fast(f, v) == Flat(f.double, v)
  {
    hide FastItems, FastMembers, Quote, IntText;
  }

  lemma {:induction false} FastScans(f: FastStyle, v: Value)
    requires Printable(v) && !f.dropNulls
    ensures Scans(Fast(f, v), TokensOf(v)) && Fast(f, v) != ""
    decreases Weight(v), 0, 0
  {
    FastShape(f, v);
    hide Fast, FastItems, FastMembers, Scans, Lex, Solid, TokensOf, Size, Flat;
    match v.data
    case Arr(es) =>
      ArrayTokens(v);
      FastItemsScan(f, es, 0);
      Bracketed("[", FastItems(f, es, 0), "]", OPEN_ARRAY,
                if Size(es) == 0 then [] else ItemTokens(es, 0), CLOSE_ARRAY);
    case Obj(es) =>
      ObjectTokens(v);
      FastMembersScan(f, es, true);
      Bracketed("{", FastMembers(f, es, true), "}", OPEN_OBJECT,
                if es.Nil? then [] else MemberTokens(es), CLOSE_OBJECT);
    case _ =>
      FlatScans(f.double, v);
  }

  lemma Bracketed(open: string, text: string, close: string, l: Lexeme, ls: seq<Lexeme>, m: Lexeme)
    requires (open == "[" && close == "]" && l == OPEN_ARRAY && m == CLOSE_ARRAY) ||
             (open == "{" && close == "}" && l == OPEN_OBJECT && m == CLOSE_OBJECT)
    requires Scans(text, ls)
    ensures Scans(open + text + close, [l] + ls + [m])
  {
    hide Scans, Lex, Solid;
    Punctuation(open);
    Punctuation(close);
    Glue(open, text, [l], ls);
    Glue(open + text, close, [l] + ls, [m]);
  }

  /** The items from `index` on, with the comma before them. */
  lemma {:induction false} FastItemsScan(f: FastStyle, es: Entries, index: nat)
    requires PrintableOf(es) && !f.dropNulls && index <= Size(es)
    ensures Scans(FastItems(f, es, index),
                  if index == Size(es) then []
                  else if index == 0 then ItemTokens(es, 0)
                  else [COMMA] + ItemTokens(es, index))
    ensures index > 0 && index < Size(es) ==> FastItems(f, es, index) != "" && FastItems(f, es, index)[0] == ','
    ensures index == Size(es) ==> FastItems(f, es, index) == ""
    decreases WeightOf(es), 1, Size(es) - index
  {
    hide Scans, Lex, Solid, TokensOf, Size, Get, Fast, ItemTokens;
    if index == Size(es) {
      Blank("");
    } else {
      FastItemsStep(f, es, index);
      ItemTokensStep(es, index);
      GetWeight(es, Idx(index));
      GetPrintable(es, Idx(index));
      FastScans(f, At(es, index));
      FastItemsScan(f, es, index + 1);
      hide FastItems;
      var item := FastItem(f, At(es, index), index == 0);
      if index == 0 {
        assert item == Fast(f, At(es, index)) by { assert "" + Fast(f, At(es, index)) == Fast(f, At(es, index)); }
      } else {
        Punctuation(",");
        Glue(",", Fast(f, At(es, index)), [COMMA], TokensOf(At(es, index)));
      }
      var head := if index == 0 then TokensOf(At(es, index)) else [COMMA] + TokensOf(At(es, index));
      var tail := if index + 1 == Size(es) then [] else [COMMA] + ItemTokens(es, index + 1);
      Glue(item, FastItems(f, es, index + 1), head, tail);
      assert head + tail == if index == 0 then ItemTokens(es, 0) else [COMMA] + ItemTokens(es, index);
    }
  }

  /** The members, with the comma before them unless they are the first. */
  lemma {:induction false} FastMembersScan(f: FastStyle, es: Entries, first: bool)
    requires PrintableOf(es) && Sort(es, false) && !f.dropNulls
    ensures Scans(FastMembers(f, es, first),
                  if es.Nil? then [] else if first then MemberTokens(es) else [COMMA] + MemberTokens(es))
    ensures !first && es.Cons? ==> FastMembers(f, es, first) != "" && FastMembers(f, es, first)[0] == ','
    ensures es.Nil? ==> FastMembers(f, es, first) == ""
    decreases WeightOf(es), 1, 0
  {
    hide Scans, Lex, Solid, TokensOf, Fast, MemberTokens, Quote;
    if es.Nil? {
      Blank("");
    } else {
      FastMembersStep(f, es, first);
      MemberTokensStep(es);
      FastScans(f, es.val);
      FastMembersScan(f, es.rest, false);
      hide FastMembers;
      var name := NameText(es.key);
      MemberScans(f, name, es.val, first);
      var key := [Lexeme(StringLiteral, Quote(name)), COLON];
      var head := (if first then [] else [COMMA]) + key + TokensOf(es.val);
      var tail := if es.rest.Nil? then [] else [COMMA] + MemberTokens(es.rest);
      Glue(FastMember(f, name, es.val, first), FastMembers(f, es.rest, false), head, tail);
      assert head + tail == (if first then [] else [COMMA]) + MemberTokens(es);
      assert [] + MemberTokens(es) == MemberTokens(es);
    }
  }

  lemma MemberScans(f: FastStyle, name: string, v: Value, first: bool)
    requires NulFree(name) && Scans(Fast(f, v), TokensOf(v)) && Fast(f, v) != ""
    ensures Scans(FastMember(f, name, v, first),
                  (if first then [] else [COMMA]) + [Lexeme(StringLiteral, Quote(name)), COLON] + TokensOf(v))
    ensures FastMember(f, name, v, first) != "" && (!first ==> FastMember(f, name, v, first)[0] == ',')
  {
    hide Scans, Lex, Solid, TokensOf, Fast, Escapes;
    StringScans(name);
    Punctuation(",");
    Punctuation(":");
    Padded("", ":", " ", COLON);
    assert "" + ":" + " " == ": ";
    Blank("");
    var comma := if first then "" else ",";
    var colon := if f.yaml then ": " else ":";
    var key := Lexeme(StringLiteral, Quote(name));
    Glue(comma, Quote(name), if first then [] else [COMMA], [key]);
    Glue(comma + Quote(name), colon, (if first then [] else [COMMA]) + [key], [COLON]);
    Glue(comma + Quote(name) + colon, Fast(f, v), (if first then [] else [COMMA]) + [key] + [COLON], TokensOf(v));
    assert (if first then [] else [COMMA]) + [key] + [COLON] == (if first then [] else [COMMA]) + [key, COLON];
  }

  // ----- StyledWriter -----

  /** No number at the end that more text could make longer. */
  predicate Open(doc: string) {
    doc == "" || !NumberChar(doc[|doc| - 1])
  }

  lemma IndentScans(doc: string, indent: nat, ls: seq<Lexeme>)
    requires Scans(doc, ls)
    ensures Scans(WriteIndent(doc, indent), ls) && Open(WriteIndent(doc, indent))
  {
    hide Scans, Lex, Solid;
    var line := "\n" + Spaces(indent);
    Blank(Spaces(indent));
    Blank(line);
    assert ls + [] == ls;
    if doc == "" || doc[|doc| - 1] == '\n' {
      Glue(doc, Spaces(indent), ls, []);
    } else if doc[|doc| - 1] != ' ' {
      Glue(doc, line, ls, []);
      assert doc + line == doc + "\n" + Spaces(indent);
    }
  }

  /** An indented bracket. */
  lemma BracketScans(doc: string, indent: nat, text: string, ls: seq<Lexeme>, l: Lexeme)
    requires Scans(doc, ls) && Scans(text, [l]) && text in {"[", "]", "{", "}"}
    ensures Scans(PutIndented(doc, indent, text), ls + [l]) && Open(PutIndented(doc, indent, text))
  {
    hide Scans, Lex, Solid;
    IndentScans(doc, indent, ls);
    hide WriteIndent;
    Glue(WriteIndent(doc, indent), text, ls, [l]);
  }

  lemma CommaScans(doc: string, ls: seq<Lexeme>)
    requires Scans(doc, ls)
    ensures Scans(doc + ",", ls + [COMMA]) && Open(doc + ",")
  {
    hide Scans, Lex, Solid;
    Punctuation(",");
    Glue(doc, ",", ls, [COMMA]);
  }

  lemma StyledFlat(p: Printer, doc: string, indent: nat, v: Value)
    requires !Filled(v)
    ensures Styled(p, doc, indent, v) == doc + Flat(p, v)
  {
    hide Flat, Size;
  }

  /** Writing a value on top of a document adds exactly the value's tokens to those of the document. */
  lemma {:induction false} StyledScans(p: Printer, doc: string, indent: nat, v: Value, ls: seq<Lexeme>)
    requires Printable(v) && Scans(doc, ls) && Open(doc)
    ensures Scans(Styled(p, doc, indent, v), ls + TokensOf(v))
    decreases Weight(v), 0, 0
  {
    hide Scans, Lex, Solid, Styled, StyledItems, StyledMembers, Flat, Size, TokensOf, ItemTokens, MemberTokens,
         Multiline, PutIndented, FlatItems, Join, Open, AllFlat;
    if !Filled(v) {
      StyledFlat(p, doc, indent, v);
      FlatScans(p, v);
      GlueOpen(doc, Flat(p, v), ls, TokensOf(v));
    } else if v.data.Arr? {
      var es := v.data.entries;
      StyledArray(p, doc, indent, v);
      ArrayTokens(v);
      if Multiline(p, es) {
        Punctuation("[");
        Punctuation("]");
        BracketScans(doc, indent, "[", ls, OPEN_ARRAY);
        var d := PutIndented(doc, indent, "[");
        StyledItemsScan(p, d, indent + INDENT_SIZE, es, 0, ls + [OPEN_ARRAY]);
        var e := StyledItems(p, d, indent + INDENT_SIZE, es, 0);
        BracketScans(e, indent, "]", ls + [OPEN_ARRAY] + ItemTokens(es, 0), CLOSE_ARRAY);
        assert ls + [OPEN_ARRAY] + ItemTokens(es, 0) + [CLOSE_ARRAY] ==
               ls + ([OPEN_ARRAY] + ItemTokens(es, 0) + [CLOSE_ARRAY]);
      } else {
        LineScans(p, es, doc, ls);
      }
    } else {
      var es := v.data.entries;
      StyledObject(p, doc, indent, v);
      ObjectTokens(v);
      Punctuation("{");
      Punctuation("}");
      BracketScans(doc, indent, "{", ls, OPEN_OBJECT);
      var d := PutIndented(doc, indent, "{");
      StyledMembersScan(p, d, indent + INDENT_SIZE, es, ls + [OPEN_OBJECT]);
      var e := StyledMembers(p, d, indent + INDENT_SIZE, es);
      BracketScans(e, indent, "}", ls + [OPEN_OBJECT] + MemberTokens(es), CLOSE_OBJECT);
      assert ls + [OPEN_OBJECT] + MemberTokens(es) + [CLOSE_OBJECT] ==
             ls + ([OPEN_OBJECT] + MemberTokens(es) + [CLOSE_OBJECT]);
    }
  }

  lemma GlueOpen(doc: string, text: string, ls: seq<Lexeme>, ms: seq<Lexeme>)
    requires Scans(doc, ls) && Scans(text, ms) && Open(doc)
    ensures Scans(doc + text, ls + ms)
  {
    hide Scans, Lex, Solid;
    Glue(doc, text, ls, ms);
  }

  lemma {:induction false} StyledItemsScan(p: Printer, doc: string, indent: nat, es: Entries, index: nat,
                                           ls: seq<Lexeme>)
    requires PrintableOf(es) && index < Size(es) && Scans(doc, ls) && Open(doc)
    ensures Scans(StyledItems(p, doc, indent, es, index), ls + ItemTokens(es, index))
    decreases WeightOf(es), 1, Size(es) - index
  {
    hide Scans, Lex, Solid, Styled, StyledItems, Size, TokensOf, ItemTokens, WriteIndent, Open, Get;
    StyledItemsStep(p, doc, indent, es, index);
    ItemTokensStep(es, index);
    GetWeight(es, Idx(index));
    GetPrintable(es, Idx(index));
    IndentScans(doc, indent, ls);
    var v := At(es, index);
    StyledScans(p, WriteIndent(doc, indent), indent, v, ls);
    var d := Styled(p, WriteIndent(doc, indent), indent, v);
    if index + 1 == Size(es) {
      assert TokensOf(v) + [] == TokensOf(v);
    } else {
      CommaScans(d, ls + TokensOf(v));
      StyledItemsScan(p, d + ",", indent, es, index + 1, ls + TokensOf(v) + [COMMA]);
      assert ls + TokensOf(v) + [COMMA] + ItemTokens(es, index + 1) ==
             ls + (TokensOf(v) + ([COMMA] + ItemTokens(es, index + 1)));
    }
  }

  lemma KeyScans(doc: string, indent: nat, name: string, ls: seq<Lexeme>)
    requires NulFree(name) && Scans(doc, ls)
    ensures var d := PutIndented(doc, indent, Quote(name)) + " : ";
            Scans(d, ls + [Lexeme(StringLiteral, Quote(name)), COLON]) && Open(d)
  {
    hide Scans, Lex, Solid, Escapes;
    IndentScans(doc, indent, ls);
    hide WriteIndent;
    StringScans(name);
    Punctuation(":");
    Padded(" ", ":", " ", COLON);
    assert " " + ":" + " " == " : ";
    var key := Lexeme(StringLiteral, Quote(name));
    Glue(WriteIndent(doc, indent), Quote(name), ls, [key]);
    Glue(PutIndented(doc, indent, Quote(name)), " : ", ls + [key], [COLON]);
    assert ls + [key] + [COLON] == ls + [key, COLON];
  }

  lemma {:induction false} StyledMembersScan(p: Printer, doc: string, indent: nat, es: Entries, ls: seq<Lexeme>)
    requires PrintableOf(es) && Sort(es, false) && es.Cons? && Scans(doc, ls) && Open(doc)
    ensures Scans(StyledMembers(p, doc, indent, es), ls + MemberTokens(es))
    decreases WeightOf(es), 1, 0
  {
    hide Scans, Lex, Solid, Styled, StyledMembers, TokensOf, MemberTokens, PutIndented, Open, Quote;
    StyledMembersStep(p, doc, indent, es);
    MemberTokensStep(es);
    var name := NameText(es.key);
    var key := [Lexeme(StringLiteral, Quote(name)), COLON];
    KeyScans(doc, indent, name, ls);
    var start := PutIndented(doc, indent, Quote(name)) + " : ";
    StyledScans(p, start, indent, es.val, ls + key);
    var d := Styled(p, start, indent, es.val);
    if es.rest.Nil? {
      assert ls + key + TokensOf(es.val) == ls + (key + TokensOf(es.val) + []);
    } else {
      CommaScans(d, ls + key + TokensOf(es.val));
      StyledMembersScan(p, d + ",", indent, es.rest, ls + key + TokensOf(es.val) + [COMMA]);
      assert ls + key + TokensOf(es.val) + [COMMA] + MemberTokens(es.rest) ==
             ls + (key + TokensOf(es.val) + ([COMMA] + MemberTokens(es.rest)));
    }
  }

  /** An array on one line. */
  lemma LineScans(p: Printer, es: Entries, doc: string, ls: seq<Lexeme>)
    requires PrintableOf(es) && Size(es) > 0 && AllFlat(es) && Scans(doc, ls) && Open(doc)
    ensures Scans(doc + "[ " + Join(FlatItems(p, es, 0)) + " ]",
                  ls + ([OPEN_ARRAY] + ItemTokens(es, 0) + [CLOSE_ARRAY]))
  {
    hide Scans, Lex, Solid, Join, FlatItems, ItemTokens, Size;
    JoinScans(p, es, 0);
    Punctuation("[");
    Punctuation("]");
    Padded("", "[", " ", OPEN_ARRAY);
    Padded(" ", "]", "", CLOSE_ARRAY);
    assert "" + "[" + " " == "[ " && " " + "]" + "" == " ]";
    var line := Join(FlatItems(p, es, 0));
    Glue(doc, "[ ", ls, [OPEN_ARRAY]);
    Glue(doc + "[ ", line, ls + [OPEN_ARRAY], ItemTokens(es, 0));
    Glue(doc + "[ " + line, " ]", ls + [OPEN_ARRAY] + ItemTokens(es, 0), [CLOSE_ARRAY]);
    assert ls + [OPEN_ARRAY] + ItemTokens(es, 0) + [CLOSE_ARRAY] ==
           ls + ([OPEN_ARRAY] + ItemTokens(es, 0) + [CLOSE_ARRAY]);
  }

  lemma {:induction false} JoinScans(p: Printer, es: Entries, index: nat)
    requires PrintableOf(es) && index < Size(es) && AllFlat(es)
    ensures Scans(Join(FlatItems(p, es, index)), ItemTokens(es, index))
    decreases Size(es) - index
  {
    hide Scans, Lex, Solid, TokensOf, ItemTokens, Size, Flat, Get, Filled, FlatItems, Join, Joins;
    JoinItemsStep(p, es, index);
    ItemTokensStep(es, index);
    GetPrintable(es, Idx(index));
    var v := At(es, index);
    FlatScans(p, v);
    if index + 1 == Size(es) {
      assert TokensOf(v) + [] == TokensOf(v);
    } else {
      JoinScans(p, es, index + 1);
      var rest := Join(FlatItems(p, es, index + 1));
      SeparatorScans();
      JoinsComma(Flat(p, v), rest);
      Glue(Flat(p, v), ", ", TokensOf(v), [COMMA]);
      Glue(Flat(p, v) + ", ", rest, TokensOf(v) + [COMMA], ItemTokens(es, index + 1));
      assert TokensOf(v) + [COMMA] + ItemTokens(es, index + 1) == TokensOf(v) + ([COMMA] + ItemTokens(es, index + 1));
    }
  }

  lemma SeparatorScans()
    ensures Scans(", ", [COMMA])
  {
    hide Scans, Lex, Solid;
    Punctuation(",");
    Padded("", ",", " ", COMMA);
    assert "" + "," + " " == ", ";
  }

  lemma JoinsComma(a: string, b: string)
    ensures Joins(a, ", ") && Joins(a + ", ", b)
  {
  }

  // ----- whole documents -----

  lemma StyledFromNothing(p: Printer, v: Value)
    requires Printable(v)
    ensures Scans(Styled(p, "", 0, v), TokensOf(v))
  {
    Blank("");
    hide Scans, Styled, TokensOf, Printable;
    StyledScans(p, "", 0, v, []);
    assert [] + TokensOf(v) == TokensOf(v);
  }

  lemma FinishedScans(text: string, v: Value)
    requires Scans(text, TokensOf(v))
    ensures Scans(text + "\n", TokensOf(v))
  {
    Blank("\n");
    hide Scans, TokensOf;
    Glue(text, "\n", TokensOf(v), []);
    assert TokensOf(v) + [] == TokensOf(v);
  }

  lemma StyledTextScans(p: Printer, v: Value)
    requires Printable(v)
    ensures Scans(StyledText(p, v), TokensOf(v))
  {
    hide Scans, Styled, TokensOf, Printable;
    StyledFromNothing(p, v);
    FinishedScans(Styled(p, "", 0, v), v);
  }

  lemma FastTextScans(f: FastStyle, v: Value)
    requires Printable(v) && !f.dropNulls
    ensures Scans(FastText(f, v), TokensOf(v))
  {
    hide Scans, Fast, TokensOf, Printable;
    FastScans(f, v);
    FinishedScans(Fast(f, v), v);
  }

  /** StyledWriter and FastWriter emit the same token stream for every tree. */
  lemma SameStream(f: FastStyle, p: Printer, v: Value)
    requires Printable(v) && !f.dropNulls
    ensures Lex(StyledText(p, v)) == TokensOf(v) && Lex(FastText(f, v)) == TokensOf(v)
    ensures Solid(StyledText(p, v)) && Solid(FastText(f, v))
  {
    hide *;
    StyledTextScans(p, v);
    FastTextScans(f, v);
    Unpack(StyledText(p, v), TokensOf(v));
    Unpack(FastText(f, v), TokensOf(v));
  }
}
