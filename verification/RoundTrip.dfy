/** Parsing what the writers print. */
module RoundTrip {
  import opened Text
  import opened Numbers
  import opened Strings
  import opened Tokens
  import opened Values
  import opened Parser
  import opened Layout
  import opened Streams

  /**
   * The tree a printed tree is read back as: offsets gone, gaps filled with nulls, and every number
   * of the kind its range asks for.
   */
  function Canon(v: Value): Value
    decreases Weight(v), 0, 0
  {
    match v.data
    case Int(i) => Plain(if i as int <= MAX_INT then Int(i) else UInt(i as int as uint64))
    case UInt(u) => Plain(if u as int <= MAX_INT then Int(u as int as int64) else UInt(u))
    case Arr(es) => Plain(Arr(CanonItems(es, 0)))
    case Obj(es) => Plain(Obj(CanonMembers(es)))
    case _ => Plain(v.data)
  }

  function CanonItems(es: Entries, index: nat): Entries
    decreases WeightOf(es), 1, Size(es) - index
  {
    if index >= Size(es) then Nil
    else
      GetWeight(es, Idx(index));
      Cons(Idx(index), Canon(At(es, index)), CanonItems(es, index + 1))
  }

  function CanonMembers(es: Entries): Entries
    decreases WeightOf(es), 1, 0
  {
    if es.Nil? then Nil else Cons(es.key, Canon(es.val), CanonMembers(es.rest))
  }

  lemma CanonItemsStep(es: Entries, index: nat)
    requires index < Size(es)
    ensures CanonItems(es, index) == Cons(Idx(index), Canon(At(es, index)), CanonItems(es, index + 1))
  {
    hide Canon, Get, Size;
  }

  // ----- reading a known token -----

  lemma ReadsToken(c: Config, r: string, l: Lexeme, ls: seq<Lexeme>)
    requires Lex(r) == [l] + ls
    ensures var t := ReadToken(r);
            t.kind == l.kind && t.text == l.text && Lex(t.rest) == ls &&
            (!l.kind.Comment? ==> SkipComments(r) == t && Significant(c, r) == t)
  {
    LexStep(r);
    assert Lex(r)[0] == l && Lex(r)[1..] == ls;
    hide ReadToken, Lex;
  }

  /** The test for an empty array looks at the first character of the next token. */
  lemma Peek(r: string)
    requires Lex(r) != []
    ensures SkipSpaces(r) != "" && Lex(SkipSpaces(r)) == Lex(r)
    ensures SkipSpaces(r)[0] == ']' <==> Lex(r)[0].kind.ArrayEnd?
    ensures SkipSpaces(r)[0] == ']' ==> ReadToken(r).rest == SkipSpaces(r)[1..]
  {
    LexStep(r);
    SkipTwice(r);
    SpacesDecide(SkipSpaces(r), r);
    ArrayEndCut(SkipSpaces(r));
    hide Lex, CutToken;
  }

  lemma SkipTwice(r: string)
    ensures SkipSpaces(SkipSpaces(r)) == SkipSpaces(r)
  {
  }

  lemma ArrayEndCut(s: string)
    requires s != ""
    ensures s[0] == ']' <==> CutToken(s).kind.ArrayEnd?
    ensures s[0] == ']' ==> CutToken(s).rest == s[1..]
  {
    hide ScanString, ScanComment, ScanWord, SkipNumber;
  }

  lemma FirstOfValue(v: Value)
    ensures TokensOf(v)[0].kind in
              {ArrayBegin, ObjectBegin, StringLiteral, NumberLiteral, TrueWord, FalseWord, NullWord}
  {
    hide ItemTokens, MemberTokens, Size, Quote, IntText;
  }

  // ----- scalars and names -----

  lemma ScalarReadsBack(c: Config, v: Value, t: Token)
    requires Printable(v) && !v.data.Arr? && !v.data.Obj?
    requires t.kind == ScalarToken(v.data).kind && t.text == ScalarToken(v.data).text
    ensures ScalarOf(c, t) == Good(Canon(v).data)
  {
    hide NumberOf, DecodeString, Quote, IntText, CStr;
    match v.data
    case Int(i) => DecodesIntText(i as int);
    case UInt(u) => DecodesIntText(u as int);
    case Str(s) =>
      QuoteRoundTrip(s, "");
      QuoteLength(s);
      CStrOfNulFree(s);
    case _ =>
  }

  lemma QuoteLength(s: string)
    ensures |Quote(s)| >= 2
  {
  }

  lemma NameReadsBack(c: Config, name: string, t: Token)
    requires NulFree(name) && t.kind.StringLiteral? && t.text == Quote(name)
    ensures NameOf(c, t) == Named(name) && CStr(name) == name
  {
    hide DecodeString, Quote, CStr;
    QuoteRoundTrip(name, "");
    QuoteLength(name);
    CStrOfNulFree(name);
  }

  // ----- maps under construction -----

  lemma {:induction false} StripAppend(a: Entries, b: Entries)
    ensures StripOf(Append(a, b)) == Append(StripOf(a), StripOf(b))
  {
    if a.Cons? {
      StripAppend(a.rest, b);
    }
  }

  lemma {:induction false} BelowTrans(es: Entries, key: Key, key': Key)
    requires Below(es, key) && KeyLess(key, key')
    ensures Below(es, key')
  {
    if es.Cons? {
      KeyTrans(es.key, key, key');
      BelowTrans(es.rest, key, key');
    }
  }

  /** Putting an entry behind all others. */
  lemma PutLast(es: Entries, key: Key, val: Value, next: Key)
    requires Below(es, key)
    ensures Put(es, key, val) == Append(es, Cons(key, val, Nil)) && Find(es, key) == None
    ensures StripOf(Put(es, key, val)) == Append(StripOf(es), Cons(key, Strip(val), Nil))
    ensures KeyLess(key, next) ==> Below(Put(es, key, val), next)
  {
    PutAtEnd(es, key, val);
    StripAppend(es, Cons(key, val, Nil));
    if KeyLess(key, next) {
      BelowTrans(es, key, next);
      BelowAppend(es, Cons(key, val, Nil), next);
    }
  }

  // ----- the parser on the tokens of a value -----

  lemma EndsElement(c: Config, n: int, r: string, v: Outcome, node: Value, l: Lexeme, ls: seq<Lexeme>)
    requires Suffix(v.rest, r) && v.ok && v.errors == [] && node.data.Arr?
    requires Lex(v.rest) == [l] + ls && l in {COMMA, CLOSE_ARRAY}
    ensures var t := ReadToken(v.rest);
            Lex(t.rest) == ls &&
            ElementEnd(c, n, r, v, node) ==
              if l == COMMA then More(node, t.rest) else Last(Outcome(true, node, t.rest, []))
  {
    ReadsToken(c, v.rest, l, ls);
    hide Lex, ReadToken, SkipComments, Suffix;
  }

  lemma EndsMember(c: Config, n: int, r: string, v: Outcome, node: Value, l: Lexeme, ls: seq<Lexeme>)
    requires Suffix(v.rest, r) && v.ok && v.errors == [] && node.data.Obj?
    requires Lex(v.rest) == [l] + ls && l in {COMMA, CLOSE_OBJECT}
    ensures var t := ReadToken(v.rest);
            Lex(t.rest) == ls &&
            MemberEnd(c, n, r, v, node) ==
              if l == COMMA then More(node, t.rest) else Last(Outcome(true, node, t.rest, []))
  {
    ReadsToken(c, v.rest, l, ls);
    hide Lex, ReadToken, SkipComments, Suffix;
  }

  lemma ArrayUnfold(c: Config, n: int, r: string, node: Value)
    requires node.data.Arr?
    ensures var s := SkipSpaces(r);
            ReadArray(c, n, r, node) ==
              if s != "" && s[0] == ']' then Outcome(true, node, s[1..], []) else ReadElements(c, n, s, node, 0)
  {
    hide SkipSpaces, ReadElements, Suffix;
  }

  lemma CanonShape(v: Value)
    ensures v.data.Arr? ==> Canon(v) == Plain(Arr(CanonItems(v.data.entries, 0)))
    ensures v.data.Obj? ==> Canon(v) == Plain(Obj(CanonMembers(v.data.entries)))
    ensures !v.data.Arr? && !v.data.Obj? ==>
              !Canon(v).data.Arr? && !Canon(v).data.Obj? && Canon(v) == Plain(Canon(v).data) &&
              TokensOf(v) == [ScalarToken(v.data)]
  {
    hide CanonItems, CanonMembers, ScalarToken;
  }

  /**
   * A text that begins with the tokens of a value reads as that value, in canonical form, whatever
   * the layout, the features and the text behind it.
   */
  lemma {:induction false} ParsesValue(c: Config, n: int, r: string, node: Value, v: Value, rest: seq<Lexeme>)
    requires Printable(v) && Lex(r) == TokensOf(v) + rest
    ensures var o := ReadValue(c, n, r, node);
            o.ok && Strip(o.node) == Canon(v) && Lex(o.rest) == rest
    decreases Weight(v), 0, 0
  {
    hide Lex, TokensOf, ItemTokens, MemberTokens, ReadValue, ReadArray, ReadMembers, Significant, Suffix, Canon, Size,
         ScalarToken, ScalarOf;
    CanonShape(v);
    if v.data.Arr? {
      ParsesArray(c, n, r, node, v, rest);
    } else if v.data.Obj? {
      ParsesObject(c, n, r, node, v, rest);
    } else {
      ReadsToken(c, r, ScalarToken(v.data), rest);
      NoComment(v.data);
      ScalarReadsBack(c, v, ReadToken(r));
      ReadsScalar(c, n, r, node);
      StripScalar(ReadValue(c, n, r, node).node, Canon(v).data);
    }
  }

  lemma NoComment(d: Data)
    ensures !ScalarToken(d).kind.Comment?
  {
    hide Quote, IntText;
  }

  lemma StripScalar(v: Value, d: Data)
    requires v.data == d && !d.Arr? && !d.Obj?
    ensures Strip(v) == Plain(d)
  {
  }

  lemma {:induction false} ParsesArray(c: Config, n: int, r: string, node: Value, v: Value, rest: seq<Lexeme>)
    requires Printable(v) && v.data.Arr? && Lex(r) == TokensOf(v) + rest
    ensures var o := ReadValue(c, n, r, node);
            o.ok && Strip(o.node) == Plain(Arr(CanonItems(v.data.entries, 0))) && Lex(o.rest) == rest
    decreases WeightOf(v.data.entries), 3, 0
  {
    hide Lex, TokensOf, ItemTokens, ReadValue, ReadArray, ReadElements, Significant, ReadToken, Suffix, Size,
         SkipSpaces, CanonItems;
    var es := v.data.entries;
    ArrayTokens(v);
    var inner := if Size(es) == 0 then [] else ItemTokens(es, 0);
    var ls := inner + [CLOSE_ARRAY] + rest;
    assert [OPEN_ARRAY] + inner + [CLOSE_ARRAY] + rest == [OPEN_ARRAY] + ls;
    ReadsToken(c, r, OPEN_ARRAY, ls);
    var t := Significant(c, r);
    ReadsArray(c, n, r, node);
    Peek(t.rest);
    var start := Value(Arr(Nil), StartOf(n, t), 0);
    ArrayUnfold(c, n, t.rest, start);
    if Size(es) == 0 {
      assert ls == [CLOSE_ARRAY] + rest;
      ReadsToken(c, t.rest, CLOSE_ARRAY, rest);
      NoItems(es);
    } else {
      ItemTokensStep(es, 0);
      FirstOfValue(At(es, 0));
      assert ls[0] == TokensOf(At(es, 0))[0];
      ParsesItems(c, n, SkipSpaces(t.rest), start, es, 0, rest);
    }
  }

  lemma NoItems(es: Entries)
    requires Size(es) == 0
    ensures CanonItems(es, 0) == Nil
  {
  }

  lemma {:induction false} ParsesItems(c: Config, n: int, r: string, node: Value, es: Entries, index: nat,
                                       rest: seq<Lexeme>)
    requires PrintableOf(es) && index < Size(es) && node.data.Arr? && Below(node.data.entries, Idx(index))
    requires Lex(r) == ItemTokens(es, index) + [CLOSE_ARRAY] + rest
    ensures var o := ReadElements(c, n, r, node, index);
            o.ok && o.node.data.Arr? && Lex(o.rest) == rest &&
            StripOf(o.node.data.entries) == Append(StripOf(node.data.entries), CanonItems(es, index))
    decreases WeightOf(es), 2, Size(es) - index
  {
    hide Lex, TokensOf, ItemTokens, ReadValue, ReadElements, ReadElement, ElementEnd, ReadToken, Suffix, Size, Get,
         CanonItems, Canon, Put, Append, Below, Strip;
    var val := At(es, index);
    ItemTokensStep(es, index);
    GetWeight(es, Idx(index));
    GetPrintable(es, Idx(index));
    CanonItemsStep(es, index);
    var last := index + 1 == Size(es);
    var l := if last then CLOSE_ARRAY else COMMA;
    var ls := if last then rest else ItemTokens(es, index + 1) + [CLOSE_ARRAY] + rest;
    assert Lex(r) == TokensOf(val) + ([l] + ls);
    ParsesValue(c, n, r, At(node.data.entries, index), val, [l] + ls);
    var v := ReadValue(c, n, r, At(node.data.entries, index));
    var node' := node.(data := Arr(Put(node.data.entries, Idx(index), v.node)));
    ElementsUnfold(c, n, r, node, index);
    ElementUnfold(c, n, r, node, index);
    EndsElement(c, n, r, v, node', l, ls);
    PutLast(node.data.entries, Idx(index), v.node, Idx(index + 1));
    var done := StripOf(node.data.entries);
    AppendAssoc(done, Cons(Idx(index), Canon(val), Nil), CanonItems(es, index + 1));
    AppendOne(Idx(index), Canon(val), CanonItems(es, index + 1));
    if last {
      PastTheEnd(es, index + 1);
    } else {
      ParsesItems(c, n, ReadToken(v.rest).rest, node', es, index + 1, rest);
    }
  }

  lemma PastTheEnd(es: Entries, index: nat)
    requires index == Size(es)
    ensures CanonItems(es, index) == Nil
  {
  }

  lemma AppendOne(key: Key, val: Value, es: Entries)
    ensures Append(Cons(key, val, Nil), es) == Cons(key, val, es)
  {
  }

  lemma {:induction false} ParsesObject(c: Config, n: int, r: string, node: Value, v: Value, rest: seq<Lexeme>)
    requires Printable(v) && v.data.Obj? && Lex(r) == TokensOf(v) + rest
    ensures var o := ReadValue(c, n, r, node);
            o.ok && Strip(o.node) == Plain(Obj(CanonMembers(v.data.entries))) && Lex(o.rest) == rest
    decreases WeightOf(v.data.entries), 3, 0
  {
    hide Lex, TokensOf, MemberTokens, ReadValue, ReadMembers, Significant, ReadToken, SkipComments, Suffix,
         CanonMembers;
    var es := v.data.entries;
    ObjectTokens(v);
    var inner := if es.Nil? then [] else MemberTokens(es);
    var ls := inner + [CLOSE_OBJECT] + rest;
    assert [OPEN_OBJECT] + inner + [CLOSE_OBJECT] + rest == [OPEN_OBJECT] + ls;
    ReadsToken(c, r, OPEN_OBJECT, ls);
    var t := Significant(c, r);
    ReadsObject(c, n, r, node);
    var start := Value(Obj(Nil), StartOf(n, t), 0);
    if es.Nil? {
      assert ls == [CLOSE_OBJECT] + rest;
      ReadsToken(c, t.rest, CLOSE_OBJECT, rest);
      MembersUnfold(c, n, t.rest, start, "");
      NoMembers();
    } else {
      ParsesMembers(c, n, t.rest, start, "", es, rest);
    }
  }

  lemma NoMembers()
    ensures CanonMembers(Nil) == Nil
  {
  }

  lemma {:induction false} ParsesMembers(c: Config, n: int, r: string, node: Value, before: string, es: Entries,
                                         rest: seq<Lexeme>)
    requires PrintableOf(es) && Sorted(es) && Sort(es, false) && es.Cons?
    requires node.data.Obj? && Below(node.data.entries, es.key)
    requires Lex(r) == MemberTokens(es) + [CLOSE_OBJECT] + rest
    ensures var o := ReadMembers(c, n, r, node, before);
            o.ok && o.node.data.Obj? && Lex(o.rest) == rest &&
            StripOf(o.node.data.entries) == Append(StripOf(node.data.entries), CanonMembers(es))
    decreases WeightOf(es), 2, 0
  {
    hide Lex, TokensOf, MemberTokens, ReadValue, ReadMembers, ReadMember, MemberEnd, ReadToken, SkipComments, NameOf,
         Suffix, CanonMembers, Canon, Put, Get, Append, Below, Quote, CStr, Strip;
    var name := es.key.name;
    var last := es.rest.Nil?;
    MemberTokensStep(es);
    var key := Lexeme(StringLiteral, Quote(name));
    var l := if last then CLOSE_OBJECT else COMMA;
    var ls := if last then rest else MemberTokens(es.rest) + [CLOSE_OBJECT] + rest;
    assert Lex(r) == [key] + ([COLON] + (TokensOf(es.val) + ([l] + ls)));
    ReadsToken(c, r, key, [COLON] + (TokensOf(es.val) + ([l] + ls)));
    var t := ReadToken(r);
    NameReadsBack(c, name, t);
    ReadsToken(c, t.rest, COLON, TokensOf(es.val) + ([l] + ls));
    var colon := ReadToken(t.rest);
    ParsesValue(c, n, colon.rest, Get(node.data.entries, es.key), es.val, [l] + ls);
    var v := ReadValue(c, n, colon.rest, Get(node.data.entries, es.key));
    var node' := node.(data := Obj(Put(node.data.entries, es.key, v.node)));
    MembersUnfold(c, n, r, node, before);
    MemberUnfold(c, n, t.rest, node, name);
    EndsMember(c, n, t.rest, v, node', l, ls);
    PutLast(node.data.entries, es.key, v.node, if last then es.key else es.rest.key);
    CanonMembersStep(es);
    AppendAssoc(StripOf(node.data.entries), Cons(es.key, Canon(es.val), Nil), CanonMembers(es.rest));
    AppendOne(es.key, Canon(es.val), CanonMembers(es.rest));
    if last {
      NoMembers();
    } else {
      ParsesMembers(c, n, ReadToken(v.rest).rest, node', name, es.rest, rest);
    }
  }

  lemma CanonMembersStep(es: Entries)
    requires es.Cons?
    ensures CanonMembers(es) == Cons(es.key, Canon(es.val), CanonMembers(es.rest))
  {
    hide Canon;
  }

  // ----- whole documents -----

  /** The root value is read, and whatever follows it is ignored. */
  lemma ParsesDocument(c: Config, doc: string, root: Value, v: Value, rest: seq<Lexeme>)
    requires Printable(v) && Lex(doc) == TokensOf(v) + rest
    ensures var o := Parse(c, doc, root);
            Strip(o.node) == Canon(v) && (o.ok <==> !c.strictRoot || v.data.Arr? || v.data.Obj?)
  {
    hide Lex, TokensOf, ReadValue, Significant, Suffix, Canon, Strip, Printable;
    ParsesValue(c, |doc|, doc, root, v, rest);
    SameKind(v);
    StripKind(ReadValue(c, |doc|, doc, root).node);
  }

  lemma SameKind(v: Value)
    ensures Canon(v).data.Arr? == v.data.Arr? && Canon(v).data.Obj? == v.data.Obj?
  {
    CanonShape(v);
  }

  lemma StripKind(v: Value)
    ensures Strip(v).data.Arr? == v.data.Arr? && Strip(v).data.Obj? == v.data.Obj?
  {
  }

  /** Parsing a styled document yields the value it was printed from, in canonical form. */
  lemma StyledRoundTrip(c: Config, p: Printer, v: Value, root: Value)
    requires Printable(v) && !c.strictRoot
    ensures var o := Parse(c, StyledText(p, v), root);
            o.ok && o.errors == [] && Strip(o.node) == Canon(v)
  {
    hide Scans, StyledText, TokensOf, Parse, Canon, Strip;
    StyledTextScans(p, v);
    Unpack(StyledText(p, v), TokensOf(v));
    assert TokensOf(v) + [] == TokensOf(v);
    ParsesDocument(c, StyledText(p, v), root, v, []);
  }

  /** So does parsing a fast document. */
  lemma FastRoundTrip(c: Config, f: FastStyle, v: Value, root: Value)
    requires Printable(v) && !f.dropNulls && !c.strictRoot
    ensures var o := Parse(c, FastText(f, v), root);
            o.ok && o.errors == [] && Strip(o.node) == Canon(v)
  {
    hide Scans, FastText, TokensOf, Parse, Canon, Strip;
    FastTextScans(f, v);
    Unpack(FastText(f, v), TokensOf(v));
    assert TokensOf(v) + [] == TokensOf(v);
    ParsesDocument(c, FastText(f, v), root, v, []);
  }
}
