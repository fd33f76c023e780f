/** What becomes of a message whose document contains the end sentinel. */
module Splits {
  import opened Text
  import opened Strings
  import opened Tokens
  import opened Values
  import opened Parser
  import opened Layout
  import opened Streams
  import opened RoundTrip
  import opened Messages
  import opened Frames
  import opened Nodes
  import Grammar
  import Wire

  // ----- where '#' and new lines can stand -----

  /** A string within one line, or another token without '#'. */
  predicate Tidy(l: Lexeme) {
    if l.kind.StringLiteral? then '\n' !in l.text else '#' !in l.text
  }

  predicate AllTidy(ls: seq<Lexeme>) {
    forall i :: 0 <= i < |ls| ==> Tidy(ls[i])
  }

  lemma NumeralTidy(i: int)
    ensures '#' !in Numbers.IntText(i)
  {
  }

  lemma QuoteTidy(s: string)
    ensures Tidy(Lexeme(StringLiteral, Quote(s)))
  {
    Wire.EscapesStayOnLine(s);
    hide Escapes;
  }

  lemma ScalarTidy(d: Data)
    ensures Tidy(ScalarToken(d))
  {
    match d
    case Int(i) => NumeralTidy(i as int);
    case UInt(u) => NumeralTidy(u as int);
    case Str(s) => QuoteTidy(s);
    case _ =>
    hide Numbers.IntText, Quote;
  }

  lemma TidyAppend(a: seq<Lexeme>, b: seq<Lexeme>)
    requires AllTidy(a) && AllTidy(b)
    ensures AllTidy(a + b)
  {
  }

  lemma SignsTidy()
    ensures AllTidy([]) && AllTidy([COMMA]) && AllTidy([OPEN_ARRAY]) && AllTidy([CLOSE_ARRAY])
    ensures AllTidy([OPEN_OBJECT]) && AllTidy([CLOSE_OBJECT])
  {
  }

  lemma NameTidy(key: Key)
    ensures AllTidy([Lexeme(StringLiteral, Quote(NameText(key))), COLON])
  {
    QuoteTidy(NameText(key));
    hide Quote, NameText;
    var l := Lexeme(StringLiteral, Quote(NameText(key)));
    assert Tidy(l) && Tidy(COLON);
    hide Tidy;
    assert [l, COLON][0] == l && [l, COLON][1] == COLON;
  }

  lemma {:induction false} TokensTidy(v: Value)
    ensures AllTidy(TokensOf(v))
    decreases Weight(v), 0, 0
  {
    hide AllTidy, TokensOf, ItemTokens, MemberTokens, Size, Get;
    SignsTidy();
    match v.data
    case Arr(es) =>
      ArrayTokens(v);
      var inner := if Size(es) == 0 then [] else ItemTokens(es, 0);
      if Size(es) > 0 {
        ItemsTidy(es, 0);
      }
      TidyAppend([OPEN_ARRAY], inner);
      TidyAppend([OPEN_ARRAY] + inner, [CLOSE_ARRAY]);
    case Obj(es) =>
      ObjectTokens(v);
      var inner := if es.Nil? then [] else MemberTokens(es);
      if es.Cons? {
        MembersTidy(es);
      }
      TidyAppend([OPEN_OBJECT], inner);
      TidyAppend([OPEN_OBJECT] + inner, [CLOSE_OBJECT]);
    case _ =>
      CanonShape(v);
      OneTidy(ScalarToken(v.data), v);
  }

  lemma OneTidy(l: Lexeme, v: Value)
    requires l == ScalarToken(v.data)
    ensures AllTidy([l])
  {
    ScalarTidy(v.data);
    hide Tidy, ScalarToken;
  }

  lemma {:induction false} ItemsTidy(es: Entries, index: nat)
    requires index < Size(es)
    ensures AllTidy(ItemTokens(es, index))
    decreases WeightOf(es), 1, Size(es) - index
  {
    hide AllTidy, TokensOf, ItemTokens, Size, Get;
    SignsTidy();
    ItemTokensStep(es, index);
    GetWeight(es, Idx(index));
    TokensTidy(At(es, index));
    if index + 1 == Size(es) {
      TidyAppend(TokensOf(At(es, index)), []);
    } else {
      ItemsTidy(es, index + 1);
      TidyAppend([COMMA], ItemTokens(es, index + 1));
      TidyAppend(TokensOf(At(es, index)), [COMMA] + ItemTokens(es, index + 1));
    }
  }

  lemma {:induction false} MembersTidy(es: Entries)
    requires es.Cons?
    ensures AllTidy(MemberTokens(es))
    decreases WeightOf(es), 1, 0
  {
    hide AllTidy, TokensOf, MemberTokens;
    SignsTidy();
    MemberTokensStep(es);
    NameTidy(es.key);
    TokensTidy(es.val);
    var start := [Lexeme(StringLiteral, Quote(NameText(es.key))), COLON] + TokensOf(es.val);
    TidyAppend([Lexeme(StringLiteral, Quote(NameText(es.key))), COLON], TokensOf(es.val));
    if es.rest.Nil? {
      TidyAppend(start, []);
    } else {
      MembersTidy(es.rest);
      TidyAppend([COMMA], MemberTokens(es.rest));
      TidyAppend(start, [COMMA] + MemberTokens(es.rest));
    }
  }

  // ----- a text cut off in the middle of a string -----

  /** The end sentinel stands right before k. */
  predicate EndsAt(d: string, k: int) {
    4 <= k <= |d| && d[k - 4] == '#' && d[k - 3] == 'e' && d[k - 2] == 'n' && d[k - 1] == 'd'
  }

  /** A quote comes before any new line. */
  ghost predicate QuoteFirst(s: string) {
    exists q :: QuoteAt(s, q)
  }

  predicate QuoteAt(s: string, q: int) {
    0 <= q < |s| && s[q] == '"' && forall i :: 0 <= i < q ==> s[i] != '\n'
  }

  /** The tokens of a text cut off are some of its first ones and an erroneous one. */
  ghost predicate CutShort(whole: seq<Lexeme>, cut: seq<Lexeme>) {
    cut != [] && cut[|cut| - 1].kind.Erroneous? && |cut| <= |whole| &&
    forall i :: 0 <= i < |cut| - 1 ==> cut[i] == whole[i] && SolidKind(cut[i].kind)
  }

  lemma CutShortCons(l: Lexeme, whole: seq<Lexeme>, cut: seq<Lexeme>)
    requires CutShort(whole, cut) && SolidKind(l.kind)
    ensures CutShort([l] + whole, [l] + cut)
  {
  }

  /** The token the end sentinel stands in, or one before it. */
  lemma FirstToken(d: string)
    requires Lex(d) != [] && Solid(d) && AllTidy(Lex(d))
    ensures var t := ReadToken(d);
            t.text != "" && SolidKind(t.kind) && Tidy(Lexeme(t.kind, t.text)) &&
            Lex(d) == [Lexeme(t.kind, t.text)] + Lex(t.rest) && Solid(t.rest) && AllTidy(Lex(t.rest))
  {
    hide ReadToken, CutToken, SkipSpaces, Lex, Solid, Suffix, StringToken, ScanString, Tidy, SolidKind;
    LexUnfolds(d, ReadToken(d));
    var t := ReadToken(d);
    var l := Lexeme(t.kind, t.text);
    assert Lex(d)[0] == l;
    forall i | 0 <= i < |Lex(t.rest)| ensures Tidy(Lex(t.rest)[i]) {
      assert Lex(d)[i + 1] == Lex(t.rest)[i];
    }
  }

  /** A token the cut does not touch. */
  lemma CutBehind(d: string, k: int)
    requires EndsAt(d, k) && ReadToken(d).text != "" && k - 4 >= |d| - |ReadToken(d).rest|
    ensures var t := ReadToken(d);
            var e := |d| - |t.rest|;
            ReadToken(d[..k]) == t.(rest := t.rest[..k - e]) && EndsAt(t.rest, k - e) && t.rest[k - e..] == d[k..]
  {
    hide ReadToken, CutToken, SkipSpaces, Lex, Solid, Suffix, StringToken, ScanString;
    Stands(d, ReadToken(d));
    var t := ReadToken(d);
    assert d == d[..k] + d[k..];
    TokenRestricts(d[..k], d[k..]);
    var e := |d| - |t.rest|;
    assert t.rest == d[e..];
  }

  /** The token the cut goes through is a string, and its closing quote is behind the cut. */
  lemma CutInside(d: string, k: int)
    requires EndsAt(d, k) && ReadToken(d).text != "" && k - 4 < |d| - |ReadToken(d).rest|
    requires var t := ReadToken(d); Tidy(Lexeme(t.kind, t.text)) && SolidKind(t.kind)
    ensures var t := ReadToken(d);
            t.kind.StringLiteral? && |d| - |t.rest| > k && |d| - |t.rest| - |t.text| <= k - 4 && QuoteFirst(d[k..])
  {
    hide ReadToken, CutToken, SkipSpaces, Lex, Solid, Suffix, StringToken, ScanString;
    Stands(d, ReadToken(d));
    LiteralShape(d);
    var t := ReadToken(d);
    var e := |d| - |t.rest|;
    var s := e - |t.text|;
    assert !Space('#');
    assert s <= k - 4;
    assert t.text[k - 4 - s] == d[k - 4] == '#';
    assert t.kind.StringLiteral?;
    EndsInQuote(t.text);
    assert t.text[|t.text| - 1] == d[e - 1] == '"';
    assert e - 1 != k - 4 && e - 1 != k - 3 && e - 1 != k - 2 && e - 1 != k - 1;
    assert QuoteAt(d[k..], e - 1 - k) by {
      forall i | 0 <= i < e - 1 - k ensures d[k..][i] != '\n' {
        assert d[k..][i] == t.text[k + i - s];
      }
    }
  }

  lemma EndsInQuote(text: string)
    requires StringToken(text)
    ensures |text| >= 2 && text[|text| - 1] == '"'
  {
  }

  /** What is left of it is an unterminated string. */
  lemma Unterminated(d: string, k: int)
    requires ReadToken(d).text != "" && ReadToken(d).kind.StringLiteral?
    requires 0 <= k < |d| - |ReadToken(d).rest| && |d| - |ReadToken(d).rest| - |ReadToken(d).text| < k
    ensures ReadToken(d[..k]).kind.Erroneous? && ReadToken(d[..k]).rest == "" && ReadToken(d[..k]).text != ""
  {
    hide ReadToken, CutToken, SkipSpaces, Lex, Solid, Suffix, StringToken, ScanString;
    var a, b := d[..k], d[k..];
    assert d == a + b;
    StringInside(d);
    Stands(d, ReadToken(d));
    SpacesRestrict(a, b);
    var s, s' := SkipSpaces(d), SkipSpaces(a);
    SpacesExtend(a, b);
    assert s == s' + b;
    assert s[0] == '"' && s'[0] == '"' && s[1..] == s'[1..] + b;
    if ScanString(s'[1..]).ok {
      StringExtends(s'[1..], b);
    }
    UnterminatedToken(a);
  }

  lemma UnterminatedToken(a: string)
    requires SkipSpaces(a) != "" && SkipSpaces(a)[0] == '"' && !ScanString(SkipSpaces(a)[1..]).ok
    ensures ReadToken(a).kind.Erroneous? && ReadToken(a).rest == "" && ReadToken(a).text != ""
  {
    hide SkipSpaces, ScanString;
    var s := SkipSpaces(a);
    FailedStringsEnd(s[1..]);
    assert CutToken(s) == Cut(Erroneous, "");
    hide CutToken;
    ReadTokenIs(a);
    assert MakeToken(s, Cut(Erroneous, "")).text == s;
  }

  lemma StringInside(d: string)
    requires ReadToken(d).text != "" && ReadToken(d).kind.StringLiteral?
    ensures SkipSpaces(d) != "" && SkipSpaces(d)[0] == '"' && SkipSpaces(d) == ReadToken(d).text + ReadToken(d).rest
    ensures ReadToken(d).rest == ScanString(SkipSpaces(d)[1..]).rest
  {
    ReadTokenIs(d);
    if SkipSpaces(d) != "" {
      CutLiteral(SkipSpaces(d));
    }
    hide CutToken;
  }

  /** Cut off behind an end sentinel, a text ends in an unterminated string, and what is left begins with its end. */
  lemma {:induction false} CutOff(d: string, k: int)
    requires Solid(d) && AllTidy(Lex(d)) && EndsAt(d, k)
    ensures CutShort(Lex(d), Lex(d[..k])) && QuoteFirst(d[k..])
    decreases |d|
  {
    hide ReadToken, CutToken, SkipSpaces, Lex, Solid, Suffix, StringToken, ScanString, Tidy, SolidKind, CutShort,
         QuoteFirst;
    NotBlank(d, k);
    FirstToken(d);
    var t := ReadToken(d);
    var l := Lexeme(t.kind, t.text);
    var e := |d| - |t.rest|;
    LexUnfolds(d[..k], ReadToken(d[..k]));
    if k - 4 >= e {
      CutBehind(d, k);
      TokenShortens(d);
      CutOff(t.rest, k - e);
      CutShortCons(l, Lex(t.rest), Lex(t.rest[..k - e]));
    } else {
      CutInside(d, k);
      Unterminated(d, k);
      CutShortOne(d, k);
    }
  }

  lemma TokenShortens(d: string)
    ensures ReadToken(d).text != "" ==> |ReadToken(d).rest| < |d|
  {
    hide CutToken;
  }

  lemma CutShortOne(d: string, k: int)
    requires 0 <= k <= |d| && Lex(d) != []
    requires var t := ReadToken(d[..k]); t.kind.Erroneous? && t.rest == "" && t.text != ""
    ensures CutShort(Lex(d), Lex(d[..k]))
  {
    LexUnfolds(d[..k], ReadToken(d[..k]));
    assert Lex("") == [];
    hide Lex, ReadToken;
  }

  lemma NotBlank(d: string, k: int)
    requires EndsAt(d, k)
    ensures Lex(d) != []
  {
    BlanksBefore(d);
    assert SkipSpaces(d) != "" by {
      assert !Space(d[k - 4]);
    }
    LexUnfolds(d, ReadToken(d));
    hide CutToken, SkipSpaces, Lex;
  }

  // ----- a text cut off does not parse -----

  /** Without comments nothing erroneous is derived. */
  predicate Sound(ls: seq<Lexeme>) {
    forall i :: 0 <= i < |ls| ==> !ls[i].kind.Comment? && !ls[i].kind.Erroneous?
  }

  predicate Uncommented(ls: seq<Lexeme>) {
    forall i :: 0 <= i < |ls| ==> !ls[i].kind.Comment?
  }

  lemma Parts(a: seq<Lexeme>, b: seq<Lexeme>)
    ensures Uncommented(a + b) <==> Uncommented(a) && Uncommented(b)
    ensures Sound(a) && Sound(b) ==> Sound(a + b)
  {
    if Uncommented(a + b) {
      assert forall i :: 0 <= i < |a| ==> a[i] == (a + b)[i];
      assert forall i :: 0 <= i < |b| ==> b[i] == (a + b)[|a| + i];
    }
  }

  lemma NoComments(ls: seq<Lexeme>)
    requires Grammar.Comments(ls)
    ensures Uncommented(ls) ==> ls == []
  {
    if ls != [] {
      assert ls[0].kind.Comment?;
    }
  }

  lemma One(l: Lexeme)
    ensures Uncommented([l]) <==> !l.kind.Comment?
    ensures Sound([l]) <==> !l.kind.Comment? && !l.kind.Erroneous?
    ensures Sound([]) && Uncommented([])
  {
    assert [l][0] == l;
  }

  lemma {:induction false} TreeSound(c: Config, t: Grammar.Tree)
    requires Grammar.ValidTree(c, t) && Uncommented(Grammar.Yield(t))
    ensures Sound(Grammar.Yield(t))
    decreases t
  {
    hide Sound, Uncommented, Grammar.Comments;
    match t
    case Leaf(before, l) =>
      Parts(before, [l]);
      NoComments(before);
      LiteralSound(c, l);
      assert Grammar.Yield(t) == [l];
    case Dropped(before) =>
      NoComments(before);
      One(COMMA);
    case ArrayOf(before, open, items) =>
      Parts(before + [open], Grammar.ItemsYield(items));
      Parts(before, [open]);
      NoComments(before);
      One(open);
      ItemsSound(c, items);
      Parts([open], Grammar.ItemsYield(items));
      assert Grammar.Yield(t) == [open] + Grammar.ItemsYield(items);
    case ObjectOf(before, open, members) =>
      Parts(before + [open], Grammar.MembersYield(members));
      Parts(before, [open]);
      NoComments(before);
      One(open);
      MembersSound(c, members, "");
      Parts([open], Grammar.MembersYield(members));
      assert Grammar.Yield(t) == [open] + Grammar.MembersYield(members);
  }

  lemma LiteralSound(c: Config, l: Lexeme)
    ensures ScalarOf(c, Grammar.TokenOf(l)).Good? ==> Sound([l])
    ensures Grammar.NameIn(c, l).Named? ==> Sound([l])
  {
    hide DecodeString, NumberData, NumberText, CStr;
  }

  lemma {:induction false} ItemsSound(c: Config, items: Grammar.Items)
    requires Grammar.ValidItems(c, items) && Uncommented(Grammar.ItemsYield(items))
    ensures Sound(Grammar.ItemsYield(items))
    decreases items
  {
    hide Sound, Uncommented, Grammar.Comments, Grammar.ValidTree, Grammar.Yield;
    if items.NoItems? {
      One(items.close);
    } else {
      var item, after := Grammar.Yield(items.item), items.after;
      var last := if items.LastItem? then items.close else items.comma;
      var others := if items.LastItem? then [] else Grammar.ItemsYield(items.others);
      assert Grammar.ItemsYield(items) == item + after + [last] + others;
      Parts(item + after + [last], others);
      Parts(item + after, [last]);
      Parts(item, after);
      NoComments(after);
      TreeSound(c, items.item);
      One(last);
      if items.MoreItems? {
        ItemsSound(c, items.others);
      }
    }
  }

  lemma {:induction false} MembersSound(c: Config, ms: Grammar.Members, name: string)
    requires Grammar.ValidMembers(c, ms, name) && Uncommented(Grammar.MembersYield(ms))
    ensures Sound(Grammar.MembersYield(ms))
    decreases ms
  {
    hide Sound, Uncommented, Grammar.Comments, Grammar.ValidTree, Grammar.Yield, Grammar.NameIn;
    if ms.NoMembers? {
      Parts(ms.after, [ms.close]);
      NoComments(ms.after);
      One(ms.close);
    } else {
      var m, after := ms.member, ms.after;
      var value := Grammar.Yield(m.value);
      var last := if ms.LastMember? then ms.close else ms.comma;
      var others := if ms.LastMember? then [] else Grammar.MembersYield(ms.others);
      assert Grammar.MembersYield(ms) == m.before + [m.name] + [m.colon] + value + after + [last] + others;
      Parts(m.before + [m.name] + [m.colon] + value + after + [last], others);
      Parts(m.before + [m.name] + [m.colon] + value + after, [last]);
      Parts(m.before + [m.name] + [m.colon] + value, after);
      Parts(m.before + [m.name] + [m.colon], value);
      Parts(m.before + [m.name], [m.colon]);
      Parts(m.before, [m.name]);
      NoComments(m.before);
      NoComments(after);
      LiteralSound(c, m.name);
      One(m.colon);
      One(last);
      TreeSound(c, m.value);
      if ms.MoreMembers? {
        MembersSound(c, ms.others, Grammar.NameIn(c, m.name).name);
      }
    }
  }

  lemma CutUncommented(whole: seq<Lexeme>, cut: seq<Lexeme>)
    requires CutShort(whole, cut)
    ensures Uncommented(cut) && cut != [] && cut[|cut| - 1].kind.Erroneous? && |cut| <= |whole| &&
            cut[..|cut| - 1] == whole[..|cut| - 1]
  {
  }

  /** What is left of a document cut off in the middle of a string is not read. */
  lemma CutFails(c: Config, root: Value, d: string, cut: string, at: Value)
    requires Printable(root) && Lex(d) == TokensOf(root) && CutShort(Lex(d), Lex(cut))
    ensures !ReadValue(c, |cut|, cut, at).ok
  {
    hide ReadValue, Lex, TokensOf, CutShort, Uncommented, Sound, Printable, Canon, Strip, Grammar.Meaning,
         Grammar.ValidTree, Grammar.Yield;
    if ReadValue(c, |cut|, cut, at).ok {
      var t := Grammar.ValueDerived(c, |cut|, cut, at);
      var rest := Lex(ReadValue(c, |cut|, cut, at).rest);
      CutUncommented(Lex(d), Lex(cut));
      var ls, n := Lex(cut), |Grammar.Yield(t)|;
      Parts(Grammar.Yield(t), rest);
      TreeSound(c, t);
      SoundBefore(Grammar.Yield(t), rest);
      var more := rest[..|rest| - 1] + Lex(d)[|ls| - 1..];
      assert Lex(d) == Grammar.Yield(t) + more by {
        assert ls[..|ls| - 1] == Grammar.Yield(t) + rest[..|rest| - 1];
        assert Lex(d) == Lex(d)[..|ls| - 1] + Lex(d)[|ls| - 1..];
      }
      assert t.Dropped? ==> more[0] == rest[0];
      Grammar.ValueReads(c, |d|, d, at, t, more);
      assert TokensOf(root) + [] == TokensOf(root);
      ParsesValue(c, |d|, d, at, root, []);
    }
  }

  lemma SoundBefore(a: seq<Lexeme>, b: seq<Lexeme>)
    requires a + b != [] && Sound(a) && (a + b)[|a + b| - 1].kind.Erroneous?
    ensures b != [] && b[|b| - 1].kind.Erroneous?
  {
    assert b == [] ==> a + b == a;
  }

  // ----- the two halves of a frame -----

  lemma HashFreePrefix(d: string, k: nat)
    requires Wire.HashFree(d) && k <= |d|
    ensures Wire.HashFree(d[..k])
  {
  }

  /** A last line counts whether or not a new line ends it. */
  lemma {:induction false} LinesNewline(s: string)
    requires s != "" && s[|s| - 1] != '\n'
    ensures Lines(s + "\n") == Lines(s)
    decreases |s|
  {
    var line := FirstLine(s);
    Wire.FirstLineEnds(s);
    if |line| < |s| {
      var rest := s[|line| + 1..];
      assert s + "\n" == line + "\n" + (rest + "\n") && s == line + "\n" + rest;
      Wire.LinesStep(line, rest + "\n");
      Wire.LinesStep(line, rest);
      LinesNewline(rest);
    } else {
      assert s + "\n" == line + "\n" + "";
      Wire.LinesStep(line, "");
    }
    hide Lines, FirstLine;
  }

  /** The first half is gathered as the document cut off. */
  lemma FirstHalf(d: string, k: nat)
    requires Wire.HashFree(d) && EndsAt(d, k)
    ensures Gather(Lines(SENTINEL_BEGIN + "\n" + d[..k]), true, false, "") == Gathered(true, "\n" + d[..k])
  {
    hide Lines, Gather, Wire.HashFree;
    var cut := d[..k];
    HashFreePrefix(d, k);
    assert cut[|cut| - 1] == 'd';
    Wire.OpensFrame(cut);
    LinesNewline(cut);
    assert cut + "\n" + "" == cut + "\n";
    Wire.GathersText(cut, "", "");
    NoLines();
    NoMoreLines("" + "\n" + cut);
    assert "" + "\n" + cut == "\n" + cut;
  }

  lemma NoLines()
    ensures Lines("") == []
  {
  }

  lemma NoMoreLines(data: string)
    ensures Gather([], false, true, data) == Gathered(true, data)
  {
  }

  /** A new line is followed by '#' only in front of the last line, which is an end sentinel. */
  predicate Quiet(s: string) {
    forall i :: 0 < i < |s| && s[i] == '#' && s[i - 1] == '\n' ==> s[i..] == SENTINEL_END
  }

  lemma QuietTail(s: string, k: nat)
    requires Quiet(s) && 0 < k <= |s| && s[k - 1] == '\n'
    ensures Quiet(s[k..]) && (k < |s| && s[k] == '#' ==> s[k..] == SENTINEL_END)
  {
    var t := s[k..];
    forall i | 0 < i < |t| && t[i] == '#' && t[i - 1] == '\n' ensures t[i..] == SENTINEL_END {
      assert s[k + i] == '#' && s[k + i - 1] == '\n' && s[k + i..] == t[i..];
    }
  }

  /** Lines none of which opens a frame are not gathered. */
  lemma {:induction false} NothingGathered(s: string)
    requires Quiet(s) && (s != "" && s[0] == '#' ==> s == SENTINEL_END)
    ensures Gather(Lines(s), false, false, "") == Gathered(false, "")
    decreases |s|
  {
    hide Lines, FirstLine, Quiet;
    if s == "" {
      NoLines();
    } else {
      var line := FirstLine(s);
      Wire.FirstLineEnds(s);
      NotBegin(s, line);
      if |line| == |s| {
        Wire.LastLine(s);
        GatherOne(line, []);
      } else {
        var rest := s[|line| + 1..];
        QuietTail(s, |line| + 1);
        assert s == line + "\n" + rest;
        Wire.LinesStep(line, rest);
        NothingGathered(rest);
        GatherOne(line, Lines(rest));
      }
    }
  }

  lemma NotBegin(s: string, line: string)
    requires line <= s && (s != "" && s[0] == '#' ==> s == SENTINEL_END)
    ensures line != SENTINEL_BEGIN && (line == SENTINEL_END ==> s == SENTINEL_END)
  {
    if line != "" {
      assert line[0] == s[0];
    }
    assert SENTINEL_END[0] == '#' && SENTINEL_BEGIN[0] == '#' && SENTINEL_BEGIN[1] == 'b' && SENTINEL_END[1] == 'e';
    if |line| >= 2 {
      assert line[1] == s[1];
    }
  }

  lemma GatherOne(line: string, lines: seq<string>)
    requires line != SENTINEL_BEGIN
    ensures Gather([line] + lines, false, false, "") ==
              if line == SENTINEL_END then Gathered(false, "") else Gather(lines, false, false, "")
    ensures Gather([], false, false, "") == Gathered(false, "")
    ensures [line] + [] == [line]
  {
    assert ([line] + lines)[1..] == lines;
  }

  /** Nor is the second half. */
  lemma SecondHalf(d: string, k: nat)
    requires Wire.HashFree(d) && k <= |d| && QuoteFirst(d[k..])
    ensures Gather(Lines(d[k..] + "\n" + SENTINEL_END), true, false, "") == Gathered(false, "")
  {
    hide Lines, FirstLine, Quiet, Wire.HashFree;
    var s := d[k..] + "\n" + SENTINEL_END;
    var q :| QuoteAt(d[k..], q);
    assert QuoteAt(s, q) by {
      assert forall i :: 0 <= i <= q ==> s[i] == d[k..][i];
    }
    HalfQuiet(d, k);
    QuotedLine(s, q);
    hide QuoteAt, QuoteFirst;
    var line := FirstLine(s);
    Wire.FirstLineEnds(s);
    assert s[|d| - k] == '\n';
    assert |line| < |s|;
    var rest := s[|line| + 1..];
    assert s == line + "\n" + rest;
    Wire.LinesStep(line, rest);
    QuietTail(s, |line| + 1);
    NothingGathered(rest);
    GatherFirst(line, Lines(rest));
  }

  lemma GatherFirst(line: string, lines: seq<string>)
    requires line != "{" && line != SENTINEL_BEGIN && line != SENTINEL_END
    ensures Gather([line] + lines, true, false, "") == Gather(lines, false, false, "")
  {
    assert ([line] + lines)[1..] == lines;
  }

  lemma HalfQuiet(d: string, k: nat)
    requires Wire.HashFree(d) && k <= |d|
    ensures Quiet(d[k..] + "\n" + SENTINEL_END)
  {
    var s, n := d[k..] + "\n" + SENTINEL_END, |d| - k;
    assert forall i :: 0 <= i < n ==> s[i] == d[k + i];
    assert s[n..] == "\n" + SENTINEL_END && s[n + 1..] == SENTINEL_END;
    forall i | 0 < i < |s| && s[i] == '#' && s[i - 1] == '\n' ensures s[i..] == SENTINEL_END {
      assert i >= n ==> s[i] == ("\n" + SENTINEL_END)[i - n];
      assert i == n + 1;
    }
  }

  /** A first line with a quote in it is neither an opening brace nor a sentinel. */
  lemma {:induction false} QuotedLine(s: string, q: int)
    requires QuoteAt(s, q)
    ensures var line := FirstLine(s);
            '"' in line && line != "{" && line != SENTINEL_BEGIN && line != SENTINEL_END && |line| > q
    decreases q
  {
    if q > 0 {
      assert QuoteAt(s[1..], q - 1) by {
        forall i | 0 <= i < q - 1 ensures s[1..][i] != '\n' {
          assert s[1..][i] == s[i + 1];
        }
      }
      QuotedLine(s[1..], q - 1);
      assert FirstLine(s) == [s[0]] + FirstLine(s[1..]);
    }
    assert FirstLine(s)[q] == '"';
    assert '"' !in SENTINEL_BEGIN && '"' !in SENTINEL_END && '"' !in "{";
  }

  // ----- the message is lost -----

  /** A gathered text that does not parse makes a buffer unreadable. */
  lemma Unreadable(c: Config, raw: string, ok: bool, data: string)
    requires raw != "" && Gather(Lines(raw), true, false, "") == Gathered(ok, data)
    requires !ReadValue(c, |data|, data, NULL_VALUE).ok
    ensures Arrived(c, raw) == Arrival.Unreadable
  {
    hide ReadValue, Lines, Gather, Significant, FieldsOf;
  }

  lemma EmptyUnread(c: Config, n: int, r: string, at: Value)
    requires r == ""
    ensures !ReadValue(c, n, r, at).ok
  {
    SkipsNothing(r);
    hide ReadValue, ReadToken, Lex;
    if ReadValue(c, n, r, at).ok {
      var t := Grammar.ValueDerived(c, n, r, at);
      Grammar.FirstOfTree(c, t, Lex(ReadValue(c, n, r, at).rest));
    }
  }

  lemma SkipsNothing(r: string)
    requires r == ""
    ensures Lex(r) == []
  {
  }

  /** Sent in two chunks that are split right behind an end sentinel of its document, a message never arrives. */
  lemma SplitInside(c: Config, root: Value, k: nat)
    requires Printable(root) && EndsAt(StyledText(c.printDouble, root), k)
    ensures var d := StyledText(c.printDouble, root);
            Arrived(c, SENTINEL_BEGIN + "\n" + d[..k]) == Arrival.Unreadable &&
            Arrived(c, d[k..] + "\n" + SENTINEL_END) == Arrival.Unreadable
  {
    var d := StyledText(c.printDouble, root);
    hide StyledText, Printable, Lines, Gather, Lex, Solid, TokensOf, CutShort, Arrived, ReadValue, Wire.HashFree,
         AllTidy;
    PrintableRealFree(root);
    Wire.StyledTextHashFree(c.printDouble, root);
    StyledTokens(c.printDouble, root);
    TokensTidy(root);
    CutOff(d, k);
    FirstHalf(d, k);
    Wire.NewlineFirst(d[..k]);
    CutFails(c, root, d, "\n" + d[..k], NULL_VALUE);
    Unreadable(c, SENTINEL_BEGIN + "\n" + d[..k], true, "\n" + d[..k]);
    SecondHalf(d, k);
    EmptyUnread(c, 0, "", NULL_VALUE);
    Unreadable(c, d[k..] + "\n" + SENTINEL_END, false, "");
  }

  lemma PrintableRealFree(v: Value)
    requires Printable(v)
    ensures RealFree(v)
  {
  }

  lemma StyledTokens(p: Printer, root: Value)
    requires Printable(root)
    ensures Lex(StyledText(p, root)) == TokensOf(root) && Solid(StyledText(p, root))
  {
    hide StyledText, TokensOf, Lex, Solid;
    StyledTextScans(p, root);
    Unpack(StyledText(p, root), TokensOf(root));
  }

  /** The two chunks. */
  function Halves(d: string, k: nat): seq<string>
    requires k <= |d|
  {
    [SENTINEL_BEGIN + "\n" + d[..k], d[k..] + "\n" + SENTINEL_END]
  }

  lemma HalvesAreChunks(p: Printer, root: Value, k: nat)
    requires k <= |StyledText(p, root)|
    ensures var chunks := Halves(StyledText(p, root), k);
            Chunks(chunks) && Concat(chunks) == Frame(p, root)
  {
    var d := StyledText(p, root);
    hide StyledText;
    var a, b := SENTINEL_BEGIN + "\n" + d[..k], d[k..] + "\n" + SENTINEL_END;
    assert [a, b][1..] == [b] && [b][1..] == [] && b + "" == b;
    assert Concat([b]) == b;
    assert d == d[..k] + d[k..];
    assert a + b == Frame(p, root);
    assert a[0] == '#' && |b| > 0;
  }

  /** An answer that is the message that was sent. */
  predicate AsSent(c: Config, root: Value, answer: Answer) {
    answer.Found? && Strip(answer.m.json) == Canon(root) &&
    Fields(answer.m.name, answer.m.from, answer.m.to) == FieldsOf(c.printDouble, root)
  }

  lemma NeverFound(c: Config, a: string, b: string)
    requires Complete(a) && Arrived(c, a) == Arrival.Unreadable && Arrived(c, b) == Arrival.Unreadable
    ensures !ReadAnswer(c, ReadsOf([a, b]), "").Found?
  {
    hide Complete, Arrived;
    var input := ReadsOf([a, b]);
    assert input[0] == Chunk(a) && input[1] == Chunk(b) && |input| == 2;
    assert input[1..][0] == Chunk(b) && input[1..][1..] == [];
    assert "" + a == a && "" + b == b;
    assert !ReadAnswer(c, [], b).Found? && !ReadAnswer(c, [], "").Found?;
  }

  lemma FirstHalfComplete(d: string, k: nat)
    requires EndsAt(d, k)
    ensures Complete(SENTINEL_BEGIN + "\n" + d[..k])
  {
    var a := SENTINEL_BEGIN + "\n" + d[..k];
    assert OccursAt(a, SENTINEL_BEGIN, 0);
    EndChars(a, 7 + k - 4);
    assert forall i :: 0 <= i < k ==> a[7 + i] == d[i];
    assert a[7 + (k - 4)] == '#' && a[7 + (k - 3)] == 'e' && a[7 + (k - 2)] == 'n' && a[7 + (k - 1)] == 'd';
    assert OccursAt(a, SENTINEL_END, 7 + k - 4);
  }

  lemma EndOf(d: string) returns (k: nat)
    requires Contains(d, SENTINEL_END)
    ensures EndsAt(d, k)
  {
    var i :| 0 <= i <= |d| && OccursAt(d, SENTINEL_END, i);
    EndChars(d, i);
    k := i + 4;
  }

  /**
   * A message arrives as it was sent, whichever way its frame is split, if and only if its document
   * does not contain the end sentinel.
   */
  lemma ArrivesIff(c: Config, root: Value)
    requires Printable(root) && !c.strictRoot && FieldsOf(c.printDouble, root).Fields?
    ensures !Contains(StyledText(c.printDouble, root), SENTINEL_END) <==>
            forall chunks :: Chunks(chunks) && Concat(chunks) == Frame(c.printDouble, root) ==>
                               AsSent(c, root, ReadAnswer(c, ReadsOf(chunks), ""))
  {
    hide StyledText, Printable, FieldsOf, Frame, Canon, Strip, ReadAnswer, ReadsOf, Chunks, Concat, OccursAt;
    var d := StyledText(c.printDouble, root);
    if Contains(d, SENTINEL_END) {
      var k := EndOf(d);
      SplitInside(c, root, k);
      FirstHalfComplete(d, k);
      HalvesAreChunks(c.printDouble, root, k);
      NeverFound(c, SENTINEL_BEGIN + "\n" + d[..k], d[k..] + "\n" + SENTINEL_END);
      assert !AsSent(c, root, ReadAnswer(c, ReadsOf(Halves(d, k)), ""));
    } else {
      forall chunks | Chunks(chunks) && Concat(chunks) == Frame(c.printDouble, root)
        ensures AsSent(c, root, ReadAnswer(c, ReadsOf(chunks), ""))
      {
        SentIsReceived(c, root, chunks);
      }
    }
  }

  /** A message with a string in it. */
  function Carrying(s: string): Value {
    Plain(Obj(Cons(Name("x"), Plain(Str(s)), Nil)))
  }

  /** Its document. */
  function CarryingText(s: string): string {
    "{\n   \"x\" : \"" + s + "\"\n}\n"
  }

  /** A message whose document contains the end sentinel, hence some split of its frame loses it. */
  lemma SentinelInside(c: Config)
    requires !c.strictRoot
    ensures var root := Carrying(SENTINEL_END);
            Printable(root) && FieldsOf(c.printDouble, root).Fields? &&
            Contains(StyledText(c.printDouble, root), SENTINEL_END) &&
            exists chunks :: Chunks(chunks) && Concat(chunks) == Frame(c.printDouble, root) &&
                             !AsSent(c, root, ReadAnswer(c, ReadsOf(chunks), ""))
  {
    var p, root := c.printDouble, Carrying(SENTINEL_END);
    SentinelsHarmless();
    CarryingFits(p, SENTINEL_END);
    CarryingHolds(SENTINEL_END);
    hide StyledText, Printable, FieldsOf, Frame, AsSent, ReadAnswer, ReadsOf, Chunks, Concat, Contains, Carrying,
         CarryingText;
    ArrivesIff(c, root);
  }

  /** Nothing to escape. */
  predicate Harmless(s: string) {
    forall i :: 0 <= i < |s| ==> !NeedsEscape(s[i]) && s[i] != NUL
  }

  lemma SentinelsHarmless()
    ensures Harmless(SENTINEL_BEGIN) && Harmless(SENTINEL_END) && Harmless("x")
  {
  }

  lemma CarryingFits(p: Printer, s: string)
    requires Harmless(s)
    ensures var root := Carrying(s);
            Printable(root) && FieldsOf(p, root) == Fields("", 0, 0) && StyledText(p, root) == CarryingText(s)
  {
    CarryingStyled(p, s);
    CarryingPrintable(s);
    CarryingFields(p, s);
    hide *;
  }

  lemma CarryingPrintable(s: string)
    requires Harmless(s)
    ensures Printable(Carrying(s))
  {
    hide *;
    SentinelsHarmless();
    HarmlessNulFree(s);
    HarmlessNulFree("x");
    CarryingIs(s);
    OneStringPrintable("x", s);
  }

  lemma HarmlessNulFree(s: string)
    requires Harmless(s)
    ensures NulFree(s)
  {
    hide NeedsEscape;
  }

  lemma OneStringPrintable(key: string, s: string)
    requires NulFree(key) && NulFree(s)
    ensures Printable(Plain(Obj(Cons(Name(key), Plain(Str(s)), Nil))))
  {
    hide *;
    var v := Plain(Str(s));
    StringFine(s);
    NilFine(Name(key));
    ConsFine(key, v, Nil);
    ObjectFine(Cons(Name(key), v, Nil));
  }

  lemma CarryingFields(p: Printer, s: string)
    ensures FieldsOf(p, Carrying(s)) == Fields("", 0, 0)
  {
    hide *;
    NothingExtracted();
    CarryingIs(s);
    FieldMissing(p, "x", Plain(Str(s)), "message_name");
    FieldMissing(p, "x", Plain(Str(s)), "message_from");
    FieldMissing(p, "x", Plain(Str(s)), "message_to");
    FieldsRead(p, Carrying(s));
  }

  lemma FieldMissing(p: Printer, key: string, val: Value, field: string)
    requires key != field
    ensures Field(p, Plain(Obj(Cons(Name(key), val, Nil))), field) == Read("")
  {
    var es := Cons(Name(key), val, Nil);
    assert Find(Nil, Name(field)) == None;
    assert Find(es, Name(field)) == None && Get(es, Name(field)) == NULL_VALUE;
  }

  lemma FieldsRead(p: Printer, root: Value)
    requires Field(p, root, "message_name") == Field(p, root, "message_from") == Field(p, root, "message_to") ==
               Read("")
    ensures FieldsOf(p, root) == Fields("", Extract("", 0), Extract("", 0))
  {
    hide Field, Extract;
  }

  lemma CarryingStyled(p: Printer, s: string)
    requires Harmless(s)
    ensures StyledText(p, Carrying(s)) == CarryingText(s)
  {
    hide *;
    SentinelsHarmless();
    Quoted(s);
    Quoted("x");
    MemberText(p, s, Plain(Str(s)));
    Opens(Quote("x"));
    OneMember(p, "x", Plain(Str(s)), "{\n   " + Quote("x"));
    Closes("{\n   \"x\" : \"" + s);
    CarryingIs(s);
  }

  lemma CarryingIs(s: string)
    ensures Carrying(s) == Plain(Obj(Cons(Name("x"), Plain(Str(s)), Nil)))
    ensures CarryingText(s) == "{\n   \"x\" : \"" + s + "\"\n}" + "\n"
    ensures "{\n   " + ("\"" + "x" + "\"") + " : " + ("\"" + s + "\"") == "{\n   \"x\" : \"" + s + "\""
  {
  }

  lemma OneMember(p: Printer, key: string, val: Value, head: string)
    requires !Filled(val) && PutIndented("", 0, "{") == "{" && PutIndented("{", INDENT_SIZE, Quote(key)) == head
    ensures StyledText(p, Plain(Obj(Cons(Name(key), val, Nil)))) ==
            PutIndented(head + " : " + Flat(p, val), 0, "}") + "\n"
  {
    hide Styled, StyledMembers, Quote, Flat, Filled, PutIndented;
    var es := Cons(Name(key), val, Nil);
    StyledFlat(p, head + " : ", INDENT_SIZE, val);
    StyledObject(p, "", 0, Plain(Obj(es)));
    StyledMembersStep(p, "{", INDENT_SIZE, es);
  }

  lemma Quoted(s: string)
    requires Harmless(s)
    ensures Quote(s) == "\"" + s + "\""
  {
    NothingToEscape(s);
    hide Escapes, NeedsEscape;
  }

  lemma MemberText(p: Printer, s: string, v: Value)
    requires v == Plain(Str(s))
    ensures !Filled(v) && Flat(p, v) == Quote(s)
  {
    hide Quote;
  }

  lemma Opens(key: string)
    ensures PutIndented("", 0, "{") == "{" && PutIndented("{", INDENT_SIZE, key) == "{\n   " + key
  {
    assert Spaces(0) == "" && Spaces(3) == "   ";
  }

  lemma Closes(doc: string)
    ensures PutIndented(doc + "\"", 0, "}") == doc + "\"\n}"
  {
    assert Spaces(0) == "";
  }

  lemma CarryingHolds(s: string)
    ensures Contains(CarryingText(s), s)
  {
    var text := CarryingText(s);
    assert text[12..12 + |s|] == s;
    assert OccursAt(text, s, 12);
  }
}
